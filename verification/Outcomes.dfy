/** What one interception sends: which places are rewritten and to what, what is sent untouched, which
    leaves are committed and where the breakpoints go. */
module Outcomes {
  import opened Basics
  import opened Wire
  import opened Segmentation
  import opened FastLane
  import opened Targets
  import opened Rewrite
  import opened Hints
  import opened Intercept
  import Budget
  import Ledger
  import Reasoning

  const PLACEHOLDER := "[cc-squash: dropped under budget pressure]"

  /** The fields of the block that stands in for a target. */
  function FieldsFor(kind: ReplacementKind, text: string): Fields {
    match kind
    case ResultBlock(id, isError) =>
      map["type" := Str("tool_result"), "tool_use_id" := Str(id), "is_error" := Bool(isError), "content" := Str(text)]
    case _ => map["type" := Str("text"), "text" := Str(text)]
  }

  /** Its bytes; in place of a string content it is printed between brackets. */
  function SizeFor(kind: ReplacementKind, text: string, printer: Printer): nat {
    ByteLen(printer.block(FieldsFor(kind, text))) + if kind == StringContent then 2 else 0
  }

  /** Target `t` of segment `k` is to be rewritten to `text` beneath the fast lane: by the staged batch when
      it is applied, or by the budget ladder when nothing is staged and the last segment alone takes more
      than two fifths of the window. */
  ghost predicate Rewrites(body: Body, inputs: Inputs, w: World, choice: Choice, k: nat, t: Target, text: string) {
    var segs := Segments(body);
    k < |segs| && t in SquashTargets(body, segs[k]) &&
    match inputs.staged
    case Some(plan) =>
      choice.apply.Some? && w.address(Payload(segs[k], body)) in plan && choice.picks(k) && text == choice.texts(k, t)
    case None =>
      var plan := Budget.Ladder(body, segs, 256);
      5 * segs[|segs| - 1].tokens > 2 * body.maxTokens &&
      (k in plan.strip || k in plan.pairs || k in plan.oldest) && !segs[k].pinned &&
      k + inputs.recencyWindow < |segs| && t.originalLen > SizeFor(t.kind, PLACEHOLDER, w.printer) &&
      text == PLACEHOLDER
  }

  // ---- the renderings beneath the lane ----

  lemma {:induction false} LiveMembers(
    body: Body, segs: seq<Segment>, n: nat, plan: set<Key>, choice: Choice, w: World, k: nat)
    requires n <= |segs|
    ensures k in Live(body, segs, n, plan, choice, w) <==>
            k < n && KeyOf(body, segs[k], w) in plan && SquashTargets(body, segs[k]) != [] && choice.picks(k)
  {
    hide KeyOf, SquashTargets;
    if n > 0 { LiveMembers(body, segs, n - 1, plan, choice, w, k); }
  }

  lemma {:induction false} RenderTargetsIff(
    ts: seq<Target>, texts: Target -> Option<string>, printer: Printer, r: Rendered)
    ensures r in RenderTargets(ts, texts, printer) <==>
            exists t :: t in ts && texts(t).Some? && r == Targets.Render(t, texts(t).value, printer)
  {
    hide Targets.Render;
    if ts != [] {
      RenderTargetsIff(ts[1..], texts, printer, r);
      assert ts == [ts[0]] + ts[1..];
    }
  }

  ghost predicate StagedFor(
    body: Body, segs: seq<Segment>, choice: Choice, printer: Printer, r: Rendered, k: nat, t: Target)
  {
    k < |segs| && t in SquashTargets(body, segs[k]) && r == Targets.Render(t, choice.texts(k, t), printer)
  }

  lemma {:induction false} StagedBaseIff(
    body: Body, segs: seq<Segment>, live: seq<nat>, choice: Choice, printer: Printer, r: Rendered)
    ensures r in StagedBase(body, segs, live, choice, printer) <==>
            exists k, t :: k in live && StagedFor(body, segs, choice, printer, r, k, t)
  {
    if live != [] {
      StagedBaseIff(body, segs, live[1..], choice, printer, r);
      StagedHeadIff(body, segs, live[0], choice, printer, r);
      hide StagedFor, SquashTargets;
      assert live == [live[0]] + live[1..];
    }
  }

  lemma StagedHeadIff(body: Body, segs: seq<Segment>, k: nat, choice: Choice, printer: Printer, r: Rendered)
    ensures k < |segs| && r in RenderTargets(SquashTargets(body, segs[k]), (t: Target) => Some(choice.texts(k, t)),
                printer) <==>
            exists t :: StagedFor(body, segs, choice, printer, r, k, t)
  {
    hide SquashTargets, Targets.Render;
    if k < |segs| {
      var ts, texts := SquashTargets(body, segs[k]), (t: Target) => Some(choice.texts(k, t));
      RenderTargetsIff(ts, texts, printer, r);
      if t :| t in ts && texts(t).Some? && r == Targets.Render(t, texts(t).value, printer) {
        assert StagedFor(body, segs, choice, printer, r, k, t);
      }
    }
  }

  lemma SizeIsPrinted(kind: ReplacementKind, text: string, printer: Printer)
    ensures SizeFor(kind, text, printer) == PrintedLen(kind, text, printer)
    ensures Replacement(kind, text, printer) ==
            Object(printer.block(FieldsFor(kind, text)), FieldsFor(kind, text))
  {
  }

  ghost predicate DroppedFor(
    body: Body, segs: seq<Segment>, window: nat, printer: Printer, r: Rendered, k: nat, t: Target)
  {
    k < |segs| && t in SquashTargets(body, segs[k]) && !segs[k].pinned && k + window < |segs| &&
    t.originalLen > SizeFor(t.kind, PLACEHOLDER, printer) && r == Targets.Render(t, PLACEHOLDER, printer)
  }

  lemma DropsForIff(body: Body, segs: seq<Segment>, k: nat, window: nat, printer: Printer, r: Rendered)
    ensures Reasoning.RendersFor(body, segs, k, window, printer, r) <==>
            exists t :: DroppedFor(body, segs, window, printer, r, k, t)
  {
    hide SquashTargets, Targets.Render, PrintedLen, SizeFor;
    if k < |segs| {
      var ts, texts := SquashTargets(body, segs[k]), DropText(printer);
      RenderTargetsIff(ts, texts, printer, r);
      forall t ensures texts(t).Some? <==> t.originalLen > SizeFor(t.kind, PLACEHOLDER, printer) {
        SizeIsPrinted(t.kind, PLACEHOLDER, printer);
      }
      if Reasoning.RendersFor(body, segs, k, window, printer, r) {
        var t :| t in ts && texts(t).Some? && r == Targets.Render(t, texts(t).value, printer);
        assert DroppedFor(body, segs, window, printer, r, k, t);
      }
      if t :| DroppedFor(body, segs, window, printer, r, k, t) {
        assert texts(t).Some? && r == Targets.Render(t, texts(t).value, printer);
      }
    }
  }

  ghost predicate Proposed(plan: Budget.Compaction, k: nat) { k in plan.strip || k in plan.pairs || k in plan.oldest }

  lemma BudgetBaseIff(body: Body, segs: seq<Segment>, window: nat, printer: Printer, r: Rendered)
    ensures r in BudgetBase(body, segs, Budget.LedgerLadder(body, segs, Budget.Target(body)), window, printer) <==>
            exists k, t ::
              Proposed(Budget.Ladder(body, segs, 256), k) && DroppedFor(body, segs, window, printer, r, k, t)
  {
    hide Budget.LedgerLadder, Budget.Ladder, Budget.Target, BudgetBase, Reasoning.RendersFor, DroppedFor;
    Budget.TargetIsTheFloor(body);
    var ps := Budget.LedgerLadder(body, segs, 256);
    Budget.LadderThroughLedger(body, segs, 256);
    Reasoning.BudgetBaseMembers(body, segs, ps, window, printer, r);
    forall k ensures Proposed(Budget.Ladder(body, segs, 256), k) <==> exists q :: 0 <= q < |ps| && ps[q].segIndex == k {
      ProposedIndices(ps, k);
    }
    forall k ensures Reasoning.RendersFor(body, segs, k, window, printer, r) <==>
                     exists t :: DroppedFor(body, segs, window, printer, r, k, t)
    {
      DropsForIff(body, segs, k, window, printer, r);
    }
  }

  lemma ProposedIndices(ps: seq<Ledger.Proposal>, k: nat)
    ensures k in Budget.Indices(ps) <==> exists q :: 0 <= q < |ps| && ps[q].segIndex == k
  {
    if k in Budget.Indices(ps) {
      var p :| p in ps && p.segIndex == k;
      var q :| 0 <= q < |ps| && ps[q] == p;
    }
  }

  lemma StagedRewrites(body: Body, inputs: Inputs, w: World, choice: Choice, r: Rendered, k: nat, t: Target)
    requires inputs.staged.Some?
    ensures k < |Segments(body)| && KeyOf(body, Segments(body)[k], w) in inputs.staged.value && choice.picks(k) &&
            choice.apply.Some? && StagedFor(body, Segments(body), choice, w.printer, r, k, t) <==>
            exists text :: Rewrites(body, inputs, w, choice, k, t, text) && r == Targets.Render(t, text, w.printer)
  {
    hide Segments, SquashTargets, Targets.Render;
    if StagedFor(body, Segments(body), choice, w.printer, r, k, t) {
      var text := choice.texts(k, t);
      assert Rewrites(body, inputs, w, choice, k, t, text) <==>
             k < |Segments(body)| && KeyOf(body, Segments(body)[k], w) in inputs.staged.value && choice.picks(k) &&
             choice.apply.Some?;
    }
  }

  lemma OverBudgetIff(window: nat, justAdded: nat)
    ensures Budget.OverBudget(window, justAdded) <==> 5 * justAdded > 2 * window
  {
  }

  lemma DropRewrites(body: Body, inputs: Inputs, w: World, choice: Choice, r: Rendered, k: nat, t: Target)
    requires inputs.staged.None?
    ensures var segs := Segments(body);
            segs != [] && 5 * segs[|segs| - 1].tokens > 2 * body.maxTokens &&
            Proposed(Budget.Ladder(body, segs, 256), k) &&
            DroppedFor(body, segs, inputs.recencyWindow, w.printer, r, k, t) <==>
            exists text :: Rewrites(body, inputs, w, choice, k, t, text) && r == Targets.Render(t, text, w.printer)
  {
    hide Segments, SquashTargets, Targets.Render, SizeFor, Budget.Ladder;
    assert Rewrites(body, inputs, w, choice, k, t, PLACEHOLDER) <==>
           k < |Segments(body)| && 5 * Segments(body)[|Segments(body)| - 1].tokens > 2 * body.maxTokens &&
           Proposed(Budget.Ladder(body, Segments(body), 256), k) &&
           DroppedFor(body, Segments(body), inputs.recencyWindow, w.printer, Targets.Render(t, PLACEHOLDER, w.printer),
                      k, t);
  }

  /** The renderings beneath the lane are exactly the rewrites owed. */
  lemma BaseIff(body: Body, inputs: Inputs, w: World, choice: Choice, r: Rendered)
    ensures r in BaseFor(body, inputs, w, choice).rendered <==>
            exists k, t, text :: Rewrites(body, inputs, w, choice, k, t, text) &&
                r == Targets.Render(t, text, w.printer)
  {
    hide Segments, Budget.Ladder, Budget.LedgerLadder, Live, StagedBase, BudgetBase, SquashTargets, Targets.Render,
        SizeFor;
    var segs := Segments(body);
    match inputs.staged {
      case Some(plan) =>
        var live := Live(body, segs, |segs|, plan, choice, w);
        StagedBaseIff(body, segs, live, choice, w.printer, r);
        hide StagedFor;
        if k, t :| k in live && StagedFor(body, segs, choice, w.printer, r, k, t) {
          LiveMembers(body, segs, |segs|, plan, choice, w, k);
          StagedRewrites(body, inputs, w, choice, r, k, t);
        }
        if k: nat, t, text :| Rewrites(body, inputs, w, choice, k, t, text) && r == Targets.Render(t, text, w.printer) {
          LiveMembers(body, segs, |segs|, plan, choice, w, k);
          StagedRewrites(body, inputs, w, choice, r, k, t);
        }
      case None =>
        BudgetBaseIff(body, segs, inputs.recencyWindow, w.printer, r);
        OverBudgetIff(body.maxTokens, if segs == [] then 0 else segs[|segs| - 1].tokens);
        hide DroppedFor, Budget.OverBudget, Targets.Render;
        if k, t :| Proposed(Budget.Ladder(body, segs, 256), k) &&
                   DroppedFor(body, segs, inputs.recencyWindow, w.printer, r, k, t) {
          DropRewrites(body, inputs, w, choice, r, k, t);
        }
        if k: nat, t, text :| Rewrites(body, inputs, w, choice, k, t, text) && r == Targets.Render(t, text, w.printer) {
          DropRewrites(body, inputs, w, choice, r, k, t);
        }
    }
  }

  // ---- the fast lane ----

  /** Segment `k` is in the lane with its leaf cleaned to `cleaned`: its key is committed, or nothing of it
      was sent before, the window is open and no staged row holds the key; and every target shrinks. */
  ghost predicate InLane(body: Body, inputs: Inputs, w: World, k: nat, cleaned: string) {
    k < |Segments(body)| &&
    var seg := Segments(body)[k];
    var key, leaf := w.address(Payload(seg, body)), FastLaneLeaf(body, seg);
    (key in inputs.fastLane ||
     (!inputs.windowClosed && seg.sources != [] &&
      (forall j :: 0 <= j < |seg.sources| ==> seg.sources[j] >= inputs.lastMessageCount) &&
      !(inputs.staged.Some? && key in inputs.staged.value))) &&
    leaf.Some? && ByteLen(leaf.value) <= 262144 && FastLaneClean(leaf.value, w.minify) == Some(cleaned) &&
    SquashTargets(body, seg) != [] &&
    forall t :: t in SquashTargets(body, seg) ==> SizeFor(t.kind, cleaned, w.printer) < t.originalLen
  }

  ghost predicate RenderedIn(ts: seq<Target>, cleaned: string, printer: Printer, r: Rendered) {
    exists t :: t in ts && r == Targets.Render(t, cleaned, printer)
  }

  lemma {:induction false} LaneRenderingIff(ts: seq<Target>, cleaned: string, printer: Printer)
    ensures LaneRendering(ts, cleaned, printer).Some? <==>
            forall t :: t in ts ==> SizeFor(t.kind, cleaned, printer) < t.originalLen
    ensures LaneRendering(ts, cleaned, printer).Some? ==>
              var rs := LaneRendering(ts, cleaned, printer).value;
              |rs| == |ts| && forall r :: r in rs <==> RenderedIn(ts, cleaned, printer, r)
  {
    hide Targets.Render, PrintedLen, SizeFor;
    if ts != [] {
      LaneRenderingIff(ts[1..], cleaned, printer);
      SizeIsPrinted(ts[0].kind, cleaned, printer);
      assert ts == [ts[0]] + ts[1..];
    }
  }

  lemma InLaneIff(body: Body, inputs: Inputs, w: World, k: nat)
    requires k < |Segments(body)|
    ensures LaneFor(body, Segments(body), k, inputs, w).Some? <==> exists cleaned :: InLane(body, inputs, w, k, cleaned)
    ensures forall cleaned :: InLane(body, inputs, w, k, cleaned) ==>
              var e := LaneFor(body, Segments(body), k, inputs, w);
              e.Some? && e.value.seg == k && e.value.key == w.address(Payload(Segments(body)[k], body)) &&
              (e.value.isNew <==> e.value.key !in inputs.fastLane) &&
              forall r :: r in e.value.rendered <==>
                          RenderedIn(SquashTargets(body, Segments(body)[k]), cleaned, w.printer, r)
  {
    hide Segments, SquashTargets, FastLaneLeaf, FastLaneClean, LaneRendering, RenderedIn, Payload, SizeFor;
    var seg := Segments(body)[k];
    var leaf := FastLaneLeaf(body, seg);
    if leaf.Some? {
      var cleaned := FastLaneClean(leaf.value, w.minify);
      if cleaned.Some? {
        LaneRenderingIff(SquashTargets(body, seg), cleaned.value, w.printer);
        assert LaneFor(body, Segments(body), k, inputs, w).Some? <==> InLane(body, inputs, w, k, cleaned.value);
      }
    }
  }

  // ---- all that a splice writes ----

  /** Nothing of the segment is rewritten beneath it. */
  ghost predicate Stands(body: Body, inputs: Inputs, w: World, choice: Choice, k: nat, cleaned: string) {
    InLane(body, inputs, w, k, cleaned) && forall t, text :: !Rewrites(body, inputs, w, choice, k, t, text)
  }

  /** Target `t` of segment `k` is to be sent with `text`. */
  ghost predicate Owed(body: Body, inputs: Inputs, w: World, choice: Choice, k: nat, t: Target, text: string) {
    Rewrites(body, inputs, w, choice, k, t, text) ||
    (Stands(body, inputs, w, choice, k, text) && t in SquashTargets(body, Segments(body)[k]))
  }

  lemma OwedIsOffered(body: Body, inputs: Inputs, w: World, choice: Choice, k: nat, t: Target, text: string)
    requires Owed(body, inputs, w, choice, k, t, text)
    ensures k < |Segments(body)| && t in SquashTargets(body, Segments(body)[k]) &&
            t.message in Segments(body)[k].sources && Offered(t, body.messages)
  {
    hide SquashTargets, Segments, FastLaneLeaf, FastLaneClean, Offered, SizeFor, Budget.Ladder, Payload;
    var ts := SquashTargets(body, Segments(body)[k]);
    var j :| 0 <= j < |ts| && ts[j] == t;
    SquashTargetsOffered(body, Segments(body)[k], j);
  }

  /** What is owed at a place is unambiguous. */
  lemma OwedOnce(
    body: Body, inputs: Inputs, w: World, choice: Choice, k: nat, t: Target, text: string, k': nat, t': Target,
    text': string)
    requires Owed(body, inputs, w, choice, k, t, text) && Owed(body, inputs, w, choice, k', t', text')
    requires t.message == t'.message && t.block == t'.block
    ensures k == k' && t == t' && text == text'
  {
    hide Segments, SquashTargets, FastLaneLeaf, FastLaneClean, Offered, SizeFor, Budget.Ladder, Payload;
    OwedIsOffered(body, inputs, w, choice, k, t, text);
    OwedIsOffered(body, inputs, w, choice, k', t', text');
    if k != k' { SegmentsAreDisjoint(body, k, k', t.message); }
    OnePlaceOneTarget(body, Segments(body)[k], t, t');
  }

  ghost function Lane(body: Body, inputs: Inputs, w: World): seq<LaneEntry> {
    LaneEntries(body, Segments(body), |Segments(body)|, inputs, w)
  }

  lemma StandingIff(body: Body, inputs: Inputs, w: World, choice: Choice, e: LaneEntry)
    ensures e in Standing(Lane(body, inputs, w), BaseFor(body, inputs, w, choice).rendered) <==>
            e.seg < |Segments(body)| && LaneFor(body, Segments(body), e.seg, inputs, w) == Some(e) &&
            forall t, text :: !Rewrites(body, inputs, w, choice, e.seg, t, text)
  {
    hide Segments, LaneFor, BaseFor, Rewrites, InLane, Taken, SquashTargets, RenderedIn;
    var segs, base := Segments(body), BaseFor(body, inputs, w, choice).rendered;
    StandingMembers(Lane(body, inputs, w), base, e);
    if e in Lane(body, inputs, w) { LaneEntryOrigin(body, segs, |segs|, inputs, w, e); }
    if e.seg < |segs| && LaneFor(body, segs, e.seg, inputs, w) == Some(e) {
      LaneEntryPresent(body, segs, |segs|, inputs, w, e.seg);
      InLaneIff(body, inputs, w, e.seg);
      var cleaned :| InLane(body, inputs, w, e.seg, cleaned);
      if r :| r in e.rendered && Taken(base, r) {
        TakenIsRewritten(body, inputs, w, choice, e.seg, cleaned, r);
      }
      if t, text :| Rewrites(body, inputs, w, choice, e.seg, t, text) {
        RewrittenIsTaken(body, inputs, w, choice, e.seg, cleaned, t, text);
      }
    }
  }

  lemma TakenIsRewritten(
    body: Body, inputs: Inputs, w: World, choice: Choice, k: nat, cleaned: string, r: Rendered)
    requires k < |Segments(body)| && RenderedIn(SquashTargets(body, Segments(body)[k]), cleaned, w.printer, r)
    requires Taken(BaseFor(body, inputs, w, choice).rendered, r)
    ensures exists t, text :: Rewrites(body, inputs, w, choice, k, t, text)
  {
    hide Segments, BaseFor, Rewrites, SquashTargets, Offered, Replacement;
    var base := BaseFor(body, inputs, w, choice).rendered;
    var t :| t in SquashTargets(body, Segments(body)[k]) && r == Targets.Render(t, cleaned, w.printer);
    var b :| b in base && b.message == r.message && b.at == r.at;
    BaseIff(body, inputs, w, choice, b);
    var k': nat, t', text :| Rewrites(body, inputs, w, choice, k', t', text) &&
        b == Targets.Render(t', text, w.printer);
    hide Stands;
    OwedIsOffered(body, inputs, w, choice, k', t', text);
    var ts := SquashTargets(body, Segments(body)[k]);
    var j :| 0 <= j < |ts| && ts[j] == t;
    SquashTargetsOffered(body, Segments(body)[k], j);
    if k != k' { SegmentsAreDisjoint(body, k, k', t.message); }
  }

  lemma RewrittenIsTaken(
    body: Body, inputs: Inputs, w: World, choice: Choice, k: nat, cleaned: string, t: Target, text: string)
    requires Rewrites(body, inputs, w, choice, k, t, text)
    ensures k < |Segments(body)| &&
            exists r :: RenderedIn(SquashTargets(body, Segments(body)[k]), cleaned, w.printer, r) &&
                        Taken(BaseFor(body, inputs, w, choice).rendered, r)
  {
    hide Segments, BaseFor, Rewrites, SquashTargets, Offered, Replacement, Stands;
    OwedIsOffered(body, inputs, w, choice, k, t, text);
    var r, b := Targets.Render(t, cleaned, w.printer), Targets.Render(t, text, w.printer);
    BaseIff(body, inputs, w, choice, b);
    assert RenderedIn(SquashTargets(body, Segments(body)[k]), cleaned, w.printer, r);
  }

  /** The renderings one interception splices in. */
  ghost function Written(body: Body, inputs: Inputs, w: World, choice: Choice): seq<Rendered> {
    var base := BaseFor(body, inputs, w, choice).rendered;
    base + Flatten(Standing(Lane(body, inputs, w), base))
  }

  lemma WrittenIff(body: Body, inputs: Inputs, w: World, choice: Choice, r: Rendered)
    ensures r in Written(body, inputs, w, choice) <==>
            exists k, t, text :: Owed(body, inputs, w, choice, k, t, text) && r == Targets.Render(t, text, w.printer)
  {
    hide Segments, BaseFor, Rewrites, SquashTargets, Targets.Render, LaneFor, InLane, Lane, Standing;
    var base := BaseFor(body, inputs, w, choice).rendered;
    var standing := Standing(Lane(body, inputs, w), base);
    BaseIff(body, inputs, w, choice, r);
    FlattenMembers(standing, r);
    if r in base {
      var k: nat, t, text :| Rewrites(body, inputs, w, choice, k, t, text) && r == Targets.Render(t, text, w.printer);
      assert Owed(body, inputs, w, choice, k, t, text);
    }
    if e :| e in standing && r in e.rendered {
      StandingIff(body, inputs, w, choice, e);
      InLaneIff(body, inputs, w, e.seg);
      var cleaned :| InLane(body, inputs, w, e.seg, cleaned);
      var t :| t in SquashTargets(body, Segments(body)[e.seg]) && r == Targets.Render(t, cleaned, w.printer);
      assert Owed(body, inputs, w, choice, e.seg, t, cleaned);
    }
    if k: nat, t, text :| Owed(body, inputs, w, choice, k, t, text) && r == Targets.Render(t, text, w.printer) {
      if Stands(body, inputs, w, choice, k, text) {
        assert t in SquashTargets(body, Segments(body)[k]) by { OwedIsOffered(body, inputs, w, choice, k, t, text); }
        InLaneIff(body, inputs, w, k);
        var e := LaneFor(body, Segments(body), k, inputs, w).value;
        StandingIff(body, inputs, w, choice, e);
        assert RenderedIn(SquashTargets(body, Segments(body)[k]), text, w.printer, r);
        assert r in e.rendered && e in standing;
      } else {
        assert Rewrites(body, inputs, w, choice, k, t, text);
      }
    }
  }

  /** The target's place holds `text`: for a string content, as its only block. */
  ghost predicate Shows(out: Body, t: Target, text: string) {
    t.message < |out.messages| &&
    var bs, j := BlocksOf(out.messages[t.message].content), if t.block.Some? then t.block.value else 0;
    (t.block.None? ==> |bs| == 1) && j < |bs| && bs[j].Object? &&
    bs[j].fields - {"cache_control"} == FieldsFor(t.kind, text)
  }

  /** The rewrites of a turn's outcome are those owed, and the gate can only refuse them all. */
  lemma SplicedIsSplice(body: Body, inputs: Inputs, w: World, choice: Choice)
    requires Intercept.Intercept(body, inputs, w, choice).Spliced?
    ensures var kept := KeptHints(BaseFor(body, inputs, w, choice).positions, |body.messages|, w.prefixHints(body));
            AllFit(Written(body, inputs, w, choice), body.messages) &&
            Splice(body, Written(body, inputs, w, choice), kept, w.mentionsHint, w.printer) ==
            Ok(Intercept.Intercept(body, inputs, w, choice).body)
  {
    hide Segments, LaneFor, BaseFor, Splice, CheckPairsAndRoles, KeptHints, Standing, Flatten, LaneEntries;
    EverythingFits(body, inputs, w, choice);
  }

  /** A spliced body shows every text owed. */
  lemma OwedShows(body: Body, inputs: Inputs, w: World, choice: Choice, k: nat, t: Target, text: string)
    requires Intercept.Intercept(body, inputs, w, choice).Spliced?
    requires Owed(body, inputs, w, choice, k, t, text)
    ensures Shows(Intercept.Intercept(body, inputs, w, choice).body, t, text)
  {
    hide Segments, BaseFor, Splice, KeptHints, Written, Intercept.Intercept, Owed, SquashTargets, Fits, LastAt;
    var rs, r := Written(body, inputs, w, choice), Targets.Render(t, text, w.printer);
    var kept := KeptHints(BaseFor(body, inputs, w, choice).positions, |body.messages|, w.prefixHints(body));
    var out := Intercept.Intercept(body, inputs, w, choice).body;
    SplicedIsSplice(body, inputs, w, choice);
    OwedIsOffered(body, inputs, w, choice, k, t, text);
    WrittenIff(body, inputs, w, choice, r);
    forall q | 0 <= q < |rs| && rs[q].message == r.message && rs[q].at == r.at ensures rs[q].block == r.block {
      WrittenIff(body, inputs, w, choice, rs[q]);
      var k': nat, t', text' :| Owed(body, inputs, w, choice, k', t', text') &&
          rs[q] == Targets.Render(t', text', w.printer);
      OwedOnce(body, inputs, w, choice, k, t, text, k', t', text');
    }
    LastAtAgrees(r.message, r.at, rs, r.block);
    SpliceIsExact(body, rs, kept, w.mentionsHint, w.printer, t.message);
    var c := body.messages[t.message].content;
    var c' :| Expected(t.message, c, rs, c') && OnlyHintsDiffer(c', out.messages[t.message].content);
    ShownTarget(c, rs, c', out.messages[t.message].content, t, text, w.printer);
  }

  lemma ShownTarget(
    c0: Content, rs: seq<Rendered>, c: Content, c': Content, t: Target, text: string, printer: Printer)
    requires Expected(t.message, c0, rs, c) && OnlyHintsDiffer(c, c')
    requires LastAt(t.message, t.block, rs) == Some(Replacement(t.kind, text, printer))
    requires t.block.None? ==> c0.Text?
    requires t.block.Some? ==> c0.Blocks? && t.block.value < |c0.blocks|
    ensures var bs, j := BlocksOf(c'), if t.block.Some? then t.block.value else 0;
            (t.block.None? ==> |bs| == 1) && j < |bs| && bs[j].Object? &&
            bs[j].fields - {"cache_control"} == FieldsFor(t.kind, text)
  {
    hide LastAt;
    var j := if t.block.Some? then t.block.value else 0;
    assert SameUpToHint(Replacement(t.kind, text, printer), BlocksOf(c')[j]);
    assert FieldsFor(t.kind, text) - {"cache_control"} == FieldsFor(t.kind, text);
  }

  /** Where nothing is owed, the original content stands, up to its cache hint. */
  lemma NothingElseChanges(body: Body, inputs: Inputs, w: World, choice: Choice, i: nat)
    requires Intercept.Intercept(body, inputs, w, choice).Spliced? && i < |body.messages|
    ensures var out, c := Intercept.Intercept(body, inputs, w, choice).body, body.messages[i].content;
            out.system == body.system && out.tools == body.tools && out.maxTokens == body.maxTokens &&
            |out.messages| == |body.messages| && out.messages[i].role == body.messages[i].role &&
            match c
            case Blocks(bs) =>
              |BlocksOf(out.messages[i].content)| == |bs| &&
              forall j :: 0 <= j < |bs| && !OwedAt(body, inputs, w, choice, i, Some(j)) ==>
                SameUpToHint(bs[j], BlocksOf(out.messages[i].content)[j])
            case Text(_, text) =>
              OwedAt(body, inputs, w, choice, i, None) || OnlyHintsDiffer(c, out.messages[i].content)
  {
    hide Segments, BaseFor, Splice, KeptHints, Written, Intercept.Intercept, Owed, Fits, LastAt, SameUpToHint;
    var rs := Written(body, inputs, w, choice);
    var kept := KeptHints(BaseFor(body, inputs, w, choice).positions, |body.messages|, w.prefixHints(body));
    SplicedIsSplice(body, inputs, w, choice);
    SpliceIsExact(body, rs, kept, w.mentionsHint, w.printer, i);
    forall at: Option<nat> | !OwedAt(body, inputs, w, choice, i, at) ensures LastAt(i, at, rs) == None {
      if LastAt(i, at, rs).Some? {
        Reasoning.LastAtIsThere(i, at, rs);
        var q :| 0 <= q < |rs| && rs[q].message == i && rs[q].at == at;
        WrittenIff(body, inputs, w, choice, rs[q]);
      }
    }
  }

  ghost predicate OwedAt(body: Body, inputs: Inputs, w: World, choice: Choice, i: nat, at: Option<nat>) {
    exists k, t, text :: Owed(body, inputs, w, choice, k, t, text) && t.message == i && t.block == at
  }

  // ---- when anything is sent back changed ----

  ghost predicate HoldsId(msgs: seq<Message>, kind: BlockKind, id: string) {
    exists i, j :: 0 <= i < |msgs| && 0 <= j < |BlocksOf(msgs[i].content)| &&
                   Kind(BlocksOf(msgs[i].content)[j]) == kind && ToolUseId(BlocksOf(msgs[i].content)[j]) == Some(id)
  }

  /** Every tool call is answered and every answer called for. */
  ghost predicate Balanced(body: Body) {
    forall id :: HoldsId(body.messages, ToolUse, id) <==> HoldsId(body.messages, ToolResult, id)
  }

  lemma BalancedIff(body: Body)
    ensures Balanced(body) <==> IdsOf(body.messages, ToolUse) == IdsOf(body.messages, ToolResult)
  {
    hide Kind, ToolUseId;
    forall id, kind ensures id in IdsOf(body.messages, kind) <==> HoldsId(body.messages, kind, id) {}
  }

  lemma {:induction false} SafeBreakpointsFilter(positions: seq<nat>, base: seq<Rendered>, keep: nat -> bool)
    requires forall m :: keep(m) <==> exists r :: r in base && r.message == m
    ensures SafeBreakpoints(positions, base) == Filter(positions, keep)
  {
    if positions != [] { SafeBreakpointsFilter(positions[1..], base, keep); }
  }

  lemma {:induction false} FilterMembers(positions: seq<nat>, keep: nat -> bool, i: nat)
    ensures i in Filter(positions, keep) <==> i in positions && keep(i)
  {
    if positions != [] {
      FilterMembers(positions[1..], keep, i);
      assert positions == [positions[0]] + positions[1..];
    }
  }

  ghost predicate Rewritten(body: Body, inputs: Inputs, w: World, choice: Choice, i: nat) {
    exists k, t, text :: Rewrites(body, inputs, w, choice, k, t, text) && t.message == i
  }

  /** The messages rewritten beneath the lane. */
  ghost function RewrittenMessages(body: Body, inputs: Inputs, w: World, choice: Choice): nat -> bool {
    (i: nat) => Rewritten(body, inputs, w, choice, i)
  }

  lemma RewrittenIff(body: Body, inputs: Inputs, w: World, choice: Choice, i: nat)
    ensures Rewritten(body, inputs, w, choice, i) <==>
            exists r :: r in BaseFor(body, inputs, w, choice).rendered && r.message == i
  {
    hide BaseFor, Rewrites, Replacement;
    if k: nat, t, text :| Rewrites(body, inputs, w, choice, k, t, text) && t.message == i {
      var r := Targets.Render(t, text, w.printer);
      BaseIff(body, inputs, w, choice, r);
    }
    if r :| r in BaseFor(body, inputs, w, choice).rendered && r.message == i {
      BaseIff(body, inputs, w, choice, r);
    }
  }

  /** The planned breakpoints that the base passes on. */
  lemma PositionsAre(body: Body, inputs: Inputs, w: World, choice: Choice)
    ensures BaseFor(body, inputs, w, choice).positions ==
            if inputs.staged.Some? && choice.apply.Some?
            then Filter(choice.apply.value, RewrittenMessages(body, inputs, w, choice)) else []
    ensures forall i: nat :: Rewritten(body, inputs, w, choice, i) ==>
              i < |body.messages| && body.messages[i].content != Blocks([])
  {
    hide Segments, Live, StagedBase, BudgetBase, Budget.LedgerLadder, Rewritten, Filter, Budget.OverBudget, Fits;
    var base := BaseFor(body, inputs, w, choice);
    forall i: nat ensures Rewritten(body, inputs, w, choice, i) <==> exists r :: r in base.rendered && r.message == i {
      RewrittenIff(body, inputs, w, choice, i);
    }
    forall i: nat | Rewritten(body, inputs, w, choice, i)
      ensures i < |body.messages| && body.messages[i].content != Blocks([])
    {
      var r :| r in base.rendered && r.message == i;
      var k := BaseHasOrigins(body, inputs, w, choice, r);
      FitsSomewhere(r, body.messages);
    }
    if inputs.staged.Some? && choice.apply.Some? {
      var keep := RewrittenMessages(body, inputs, w, choice);
      if base.rendered != [] {
        SafeBreakpointsFilter(choice.apply.value, base.rendered, keep);
      } else {
        NoneKept(choice.apply.value, keep);
        assert base.positions == [] by { EmptyBaseHasNoBreakpoints(choice.apply.value); }
      }
    }
  }

  lemma FitsSomewhere(r: Rendered, msgs: seq<Message>)
    requires Fits(r, msgs)
    ensures r.message < |msgs| && msgs[r.message].content != Blocks([])
  {
    hide SamePairing, NoPairing;
  }

  lemma {:induction false} NoneKept(positions: seq<nat>, keep: nat -> bool)
    requires forall m :: !keep(m)
    ensures Filter(positions, keep) == []
  {
    if positions != [] { NoneKept(positions[1..], keep); }
  }

  lemma {:induction false} EmptyBaseHasNoBreakpoints(positions: seq<nat>)
    ensures SafeBreakpoints(positions, []) == []
  {
    if positions != [] { EmptyBaseHasNoBreakpoints(positions[1..]); }
  }

  /** Unless the gate refuses the body made, something changes exactly when some target is owed a text and
      the tool pairs balance. */
  lemma SplicesIff(body: Body, inputs: Inputs, w: World, choice: Choice)
    requires forall b :: w.accepts(b)
    ensures Intercept.Intercept(body, inputs, w, choice).Spliced? <==>
            Balanced(body) && exists k, t, text :: Owed(body, inputs, w, choice, k, t, text)
  {
    hide Segments, LaneFor, BaseFor, Splice, CheckPairsAndRoles, KeptHints, Standing, Flatten, LaneEntries, Owed,
        IdsOf, Fits, Balanced, Replacement, HoldsId;
    var base, rs := BaseFor(body, inputs, w, choice), Written(body, inputs, w, choice);
    var kept := KeptHints(base.positions, |body.messages|, w.prefixHints(body));
    EverythingFits(body, inputs, w, choice);
    KeptHintsAreOnBlocks(body, inputs, w, choice, w.prefixHints(body));
    SpliceOkIff(body, rs, kept, w.mentionsHint, w.printer);
    SpliceKeepsPairsAndRoles(body, rs, kept, w.mentionsHint, w.printer);
    BalancedIff(body);
    if rs != [] {
      WrittenIff(body, inputs, w, choice, rs[0]);
    }
    if k: nat, t, text :| Owed(body, inputs, w, choice, k, t, text) {
      WrittenIff(body, inputs, w, choice, Targets.Render(t, text, w.printer));
    }
  }

  lemma KeptHintsAreOnBlocks(body: Body, inputs: Inputs, w: World, choice: Choice, prefixHints: nat)
    ensures forall i :: i in KeptHints(BaseFor(body, inputs, w, choice).positions, |body.messages|, prefixHints) ==>
              i < |body.messages| && body.messages[i].content != Blocks([])
  {
    hide BaseFor, Filter, Rewritten, AmongLast, KeptHints;
    var positions := BaseFor(body, inputs, w, choice).positions;
    PositionsAre(body, inputs, w, choice);
    forall i | i in KeptHints(positions, |body.messages|, prefixHints)
      ensures i < |body.messages| && body.messages[i].content != Blocks([])
    {
      KeptIsPlanned(positions, |body.messages|, prefixHints, i);
      FilterMembers(if choice.apply.Some? then choice.apply.value else [],
                    RewrittenMessages(body, inputs, w, choice), i);
    }
  }

  lemma KeptIsPlanned(positions: seq<nat>, messages: nat, prefixHints: nat, i: nat)
    requires i in KeptHints(positions, messages, prefixHints)
    ensures i in positions
  {
    hide KeptHints;
    KeptHintsIff(positions, messages, prefixHints, i);
  }

  /** The gate accepts or refuses what is made as a whole, and has no other say in it. */
  lemma GateOnlyRefuses(body: Body, inputs: Inputs, w: World, choice: Choice)
    ensures var made := Intercept.Intercept(body, inputs, w.(accepts := AcceptAll()), choice);
            Intercept.Intercept(body, inputs, w, choice) ==
            if made.Spliced? && !w.accepts(made.body) then Identity else made
  {
    hide Segments, LaneFor, Splice, CheckPairsAndRoles, KeptHints, Standing, Flatten, Live, StagedBase, BudgetBase,
        Budget.LedgerLadder, CommittedKeys;
    var w' := w.(accepts := AcceptAll());
    var segs := Segments(body);
    LaneIgnoresGate(body, segs, |segs|, inputs, w, w');
    if inputs.staged.Some? {
      LiveIgnoresGate(body, segs, |segs|, inputs.staged.value, choice, w, w');
      CommittedIgnoresGate(body, segs, Live(body, segs, |segs|, inputs.staged.value, choice, w), inputs.fastLane, w,
                           w');
    }
  }

  function AcceptAll(): Body -> bool { b => true }

  lemma {:induction false} LaneIgnoresGate(
    body: Body, segs: seq<Segment>, n: nat, inputs: Inputs, w: World, w': World)
    requires n <= |segs| && w' == w.(accepts := w'.accepts)
    ensures LaneEntries(body, segs, n, inputs, w) == LaneEntries(body, segs, n, inputs, w')
  {
    hide LaneFor;
    if n > 0 {
      LaneIgnoresGate(body, segs, n - 1, inputs, w, w');
      LaneForIgnoresGate(body, segs, n - 1, inputs, w, w');
    }
  }

  lemma LaneForIgnoresGate(body: Body, segs: seq<Segment>, k: nat, inputs: Inputs, w: World, w': World)
    requires k < |segs| && w' == w.(accepts := w'.accepts)
    ensures LaneFor(body, segs, k, inputs, w) == LaneFor(body, segs, k, inputs, w')
  {
    hide FastLaneLeaf, FastLaneClean, LaneRendering, SquashTargets, ProvablyUncached, Payload;
  }

  lemma {:induction false} LiveIgnoresGate(
    body: Body, segs: seq<Segment>, n: nat, plan: set<Key>, choice: Choice, w: World, w': World)
    requires n <= |segs| && w' == w.(accepts := w'.accepts)
    ensures Live(body, segs, n, plan, choice, w) == Live(body, segs, n, plan, choice, w')
  {
    hide Payload, SquashTargets;
    if n > 0 { LiveIgnoresGate(body, segs, n - 1, plan, choice, w, w'); }
  }

  lemma {:induction false} CommittedIgnoresGate(
    body: Body, segs: seq<Segment>, live: seq<nat>, fastLane: set<Key>, w: World, w': World)
    requires w' == w.(accepts := w'.accepts)
    ensures CommittedKeys(body, segs, live, fastLane, w) == CommittedKeys(body, segs, live, fastLane, w')
  {
    hide Payload;
    if live != [] { CommittedIgnoresGate(body, segs, live[1..], fastLane, w, w'); }
  }

  // ---- commitments and breakpoints ----

  /** A splice commits exactly the fresh leaves that stand, and releases exactly the committed keys the
      applied batch rewrites. */
  lemma CommittedExactly(body: Body, inputs: Inputs, w: World, choice: Choice, key: Key)
    requires Intercept.Intercept(body, inputs, w, choice).Spliced?
    ensures var o, segs := Intercept.Intercept(body, inputs, w, choice), Segments(body);
            (key in o.committed <==>
             key !in inputs.fastLane &&
             exists k: nat, cleaned :: k < |segs| && Stands(body, inputs, w, choice, k, cleaned) &&
                                       key == w.address(Payload(segs[k], body))) &&
            (key in o.uncommitted <==>
             key in inputs.fastLane &&
             inputs.staged.Some? && exists k: nat, t, text :: Rewrites(body, inputs, w, choice, k, t, text) &&
                                                            key == w.address(Payload(segs[k], body)))
  {
    hide Segments, LaneFor, Splice, CheckPairsAndRoles, KeptHints, Standing, Flatten, LaneEntries, BaseFor, Rewrites,
        InLane, Payload, Live, StagedBase, BudgetBase, Budget.LedgerLadder, CommittedKeys, RenderedIn;
    var base := BaseFor(body, inputs, w, choice);
    var standing := Standing(Lane(body, inputs, w), base.rendered);
    FreshKeysMembers(standing, key);
    if e :| e in standing && e.isNew && e.key == key {
      StandingIff(body, inputs, w, choice, e);
      InLaneIff(body, inputs, w, e.seg);
      var cleaned :| InLane(body, inputs, w, e.seg, cleaned);
      assert Stands(body, inputs, w, choice, e.seg, cleaned);
    }
    if k: nat, cleaned :| k < |Segments(body)| && Stands(body, inputs, w, choice, k, cleaned) &&
                          key == w.address(Payload(Segments(body)[k], body)) && key !in inputs.fastLane {
      InLaneIff(body, inputs, w, k);
      StandingIff(body, inputs, w, choice, LaneFor(body, Segments(body), k, inputs, w).value);
    }
    ReleasedExactly(body, inputs, w, choice, key);
  }

  lemma ReleasedExactly(body: Body, inputs: Inputs, w: World, choice: Choice, key: Key)
    ensures key in BaseFor(body, inputs, w, choice).uncommit <==>
            key in inputs.fastLane &&
            inputs.staged.Some? && exists k: nat, t, text :: Rewrites(body, inputs, w, choice, k, t, text) &&
                                                           key == w.address(Payload(Segments(body)[k], body))
  {
    hide Segments, Payload, Live, StagedBase, BudgetBase, Budget.LedgerLadder, CommittedKeys, SquashTargets, SizeFor,
        Budget.Ladder, SafeBreakpoints;
    if inputs.staged.Some? {
      var segs, plan := Segments(body), inputs.staged.value;
      var live := Live(body, segs, |segs|, plan, choice, w);
      CommittedKeysMembers(body, segs, live, inputs.fastLane, w, key);
      if k :| k in live && k < |segs| && KeyOf(body, segs[k], w) == key && choice.apply.Some? {
        LiveMembers(body, segs, |segs|, plan, choice, w, k);
        var t := SquashTargets(body, segs[k])[0];
        assert Rewrites(body, inputs, w, choice, k, t, choice.texts(k, t));
      }
      if k: nat, t, text :| Rewrites(body, inputs, w, choice, k, t, text) &&
                            key == w.address(Payload(segs[k], body)) {
        LiveMembers(body, segs, |segs|, plan, choice, w, k);
      }
    }
  }

  /** A block of a spliced body is hinted exactly when it is the last of a message the applied batch
      rewrote, and that message is among the last of its planned breakpoints so rewritten: four, less the
      hints before the messages. */
  lemma BreakpointsIff(body: Body, inputs: Inputs, w: World, choice: Choice, i: nat, j: nat)
    requires forall m: Message, k ::
               0 <= k < |BlocksOf(m.content)| && Hinted(BlocksOf(m.content)[k]) ==> w.mentionsHint(m)
    requires Intercept.Intercept(body, inputs, w, choice).Spliced?
    requires var out := Intercept.Intercept(body, inputs, w, choice).body;
             i < |body.messages| && i < |out.messages| && j < |BlocksOf(out.messages[i].content)|
    ensures var bs, prefix := BlocksOf(Intercept.Intercept(body, inputs, w, choice).body.messages[i].content),
                w.prefixHints(body);
            Hinted(bs[j]) <==>
            j == |bs| - 1 && bs[j].Object? && inputs.staged.Some? && choice.apply.Some? &&
            AmongLast(choice.apply.value, RewrittenMessages(body, inputs, w, choice),
                      if prefix >= 4 then 0 else 4 - prefix, i)
  {
    hide BaseFor, Splice, KeptHints, Written, Intercept.Intercept, Hinted, AllFit, Rewritten, AmongLast, Filter, Last;
    var base, prefix := BaseFor(body, inputs, w, choice), w.prefixHints(body);
    SplicedIsSplice(body, inputs, w, choice);
    HintedIff(body, Written(body, inputs, w, choice), base.positions, prefix, w.mentionsHint, w.printer, i, j);
    PositionsAre(body, inputs, w, choice);
    KeptAre(base.positions, |body.messages|, prefix);
    var keep, room := RewrittenMessages(body, inputs, w, choice), if prefix >= 4 then 0 else 4 - prefix;
    if inputs.staged.Some? && choice.apply.Some? {
      FilterTwice(choice.apply.value, keep, |body.messages|);
      LastOfFilter(choice.apply.value, keep, room, i);
    } else {
      NothingKept(|body.messages|, room);
    }
  }

  lemma NothingKept(messages: nat, room: nat)
    ensures Last(Filter([], Below(messages)), room) == []
  {
  }

  lemma KeptAre(positions: seq<nat>, messages: nat, prefixHints: nat)
    ensures KeptHints(positions, messages, prefixHints) ==
            Last(Filter(positions, Below(messages)), if prefixHints >= 4 then 0 else 4 - prefixHints)
  {
    InRangeFilters(positions, messages);
    var wanted := InRange(positions, messages);
    assert wanted[0..] == wanted;
  }

  lemma {:induction false} FilterTwice(positions: seq<nat>, keep: nat -> bool, messages: nat)
    requires forall i: nat :: keep(i) ==> i < messages
    ensures Filter(Filter(positions, keep), Below(messages)) == Filter(positions, keep)
  {
    if positions != [] {
      FilterTwice(positions[1..], keep, messages);
      var rest := Filter(positions[1..], keep);
      assert ([positions[0]] + rest)[1..] == rest && [] + rest == rest;
    }
  }

  // ---- the pressure a turn sheds under ----

  /** The tokens of the segment the turn added. */
  function LastTokens(body: Body): nat {
    var segs := Segments(body);
    if segs == [] then 0 else segs[|segs| - 1].tokens
  }

  /** With nothing staged, no leaf in the lane and a last segment of at most two fifths of the window, the
      body goes out as it came. */
  lemma NominalIsIdentity(body: Body, inputs: Inputs, w: World, choice: Choice)
    requires inputs.staged.None? && 5 * LastTokens(body) <= 2 * body.maxTokens
    requires LaneEntries(body, Segments(body), |Segments(body)|, inputs, w) == []
    ensures Intercept.Intercept(body, inputs, w, choice) == Identity
  {
    hide Segments, LaneEntries, Splice, Live, StagedBase, BudgetBase, Budget.LedgerLadder;
    OverBudgetIff(body.maxTokens, LastTokens(body));
  }

  /** Above it, every shrinking target of an unpinned segment that the ladder strips or drops, outside the
      recency window, shows the placeholder in whatever is spliced. */
  lemma OverBudgetSheds(body: Body, inputs: Inputs, w: World, choice: Choice, k: nat, t: Target)
    requires Intercept.Intercept(body, inputs, w, choice).Spliced?
    requires inputs.staged.None? && 5 * LastTokens(body) > 2 * body.maxTokens
    requires var segs := Segments(body);
             k + inputs.recencyWindow < |segs| && !segs[k].pinned && t in SquashTargets(body, segs[k]) &&
             t.originalLen > SizeFor(t.kind, PLACEHOLDER, w.printer) &&
             var plan := Budget.Ladder(body, segs, 256);
             (k in plan.strip || k in plan.pairs || k in plan.oldest)
    ensures Shows(Intercept.Intercept(body, inputs, w, choice).body, t, PLACEHOLDER)
  {
    hide Segments, Intercept.Intercept, SquashTargets, SizeFor, Budget.Ladder, Shows;
    assert Rewrites(body, inputs, w, choice, k, t, PLACEHOLDER);
    OwedShows(body, inputs, w, choice, k, t, PLACEHOLDER);
  }

  /** And at least one of them does unless the gate refuses: what is over budget does not go out whole. */
  lemma OverBudgetSplices(body: Body, inputs: Inputs, w: World, choice: Choice, k: nat, t: Target)
    requires forall b :: w.accepts(b)
    requires inputs.staged.None? && 5 * LastTokens(body) > 2 * body.maxTokens && Balanced(body)
    requires var segs := Segments(body);
             k + inputs.recencyWindow < |segs| && !segs[k].pinned && t in SquashTargets(body, segs[k]) &&
             t.originalLen > SizeFor(t.kind, PLACEHOLDER, w.printer) &&
             var plan := Budget.Ladder(body, segs, 256);
             (k in plan.strip || k in plan.pairs || k in plan.oldest)
    ensures Intercept.Intercept(body, inputs, w, choice).Spliced?
  {
    hide Segments, Intercept.Intercept, SquashTargets, SizeFor, Budget.Ladder, Balanced;
    assert Rewrites(body, inputs, w, choice, k, t, PLACEHOLDER);
    assert Owed(body, inputs, w, choice, k, t, PLACEHOLDER);
    SplicesIff(body, inputs, w, choice);
  }

  /** An applied batch shows every text it staged for a segment it still holds. */
  lemma AppliedBatchShows(body: Body, inputs: Inputs, w: World, choice: Choice, k: nat, t: Target)
    requires Intercept.Intercept(body, inputs, w, choice).Spliced?
    requires inputs.staged.Some? && choice.apply.Some? && k < |Segments(body)| && choice.picks(k)
    requires w.address(Payload(Segments(body)[k], body)) in inputs.staged.value
    requires t in SquashTargets(body, Segments(body)[k])
    ensures Shows(Intercept.Intercept(body, inputs, w, choice).body, t, choice.texts(k, t))
  {
    hide Segments, Intercept.Intercept, SquashTargets, Shows, Payload;
    assert Rewrites(body, inputs, w, choice, k, t, choice.texts(k, t));
    OwedShows(body, inputs, w, choice, k, t, choice.texts(k, t));
  }

  /** A batch that is held, or of which nothing is left, rewrites nothing and releases nothing; alone it
      leaves the body as it came. */
  lemma HeldBatchIsIdentity(body: Body, inputs: Inputs, w: World, choice: Choice)
    requires inputs.staged.Some?
    requires choice.apply.None? ||
             forall k :: 0 <= k < |Segments(body)| && choice.picks(k) &&
                         SquashTargets(body, Segments(body)[k]) != [] ==>
                           w.address(Payload(Segments(body)[k], body)) !in inputs.staged.value
    ensures forall k, t, text :: !Rewrites(body, inputs, w, choice, k, t, text)
    ensures Uncommitted(Intercept.Intercept(body, inputs, w, choice)) == []
    ensures LaneEntries(body, Segments(body), |Segments(body)|, inputs, w) == [] ==>
              Intercept.Intercept(body, inputs, w, choice) == Identity
  {
    hide Segments, SquashTargets, LaneEntries, Splice, Live, Payload, KeptHints, CheckPairsAndRoles;
    var segs := Segments(body);
    var live := Live(body, segs, |segs|, inputs.staged.value, choice, w);
    if live != [] && choice.apply.Some? { LiveMembers(body, segs, |segs|, inputs.staged.value, choice, w, live[0]); }
  }
}
