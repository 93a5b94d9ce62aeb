/** The on-path cleaner and the staged passes it must agree with byte for byte. */
module FastLane {
  import opened Basics
  import opened Wire
  import opened Segmentation
  import opened Ledger
  import opened Runner
  import opened Recode
  import AnsiStrip
  import Whitespace

  /** Only an unpinned tool pair with one large string result is a candidate. */
  function FastLaneLeaf(body: Body, seg: Segment): Option<string> {
    if seg.kind == ToolPair then RawLeaf(body, seg) else None
  }

  /** Strip, normalize, then minify if that helps; nothing unless the whole shrinks the text. */
  function FastLaneClean(content: string, minify: string -> Option<string>): (cleaned: Option<string>)
    ensures cleaned.Some? ==> ByteLen(cleaned.value) < ByteLen(content)
  {
    var tidy := Whitespace.Normalize(AnsiStrip.Strip(content));
    var small := match minify(tidy)
                 case Some(m) => if ByteLen(m) < ByteLen(tidy) then m else tidy
                 case None => tidy;
    if ByteLen(small) < ByteLen(content) then Some(small) else None
  }

  // ---- the three staged passes ----

  function AnsiStripPass(): Transform { Transform(s => Some(AnsiStrip.Strip(s)), false, "ansi_strip") }

  function WhitespacePass(): Transform { Transform(s => Some(Whitespace.Normalize(s)), false, "whitespace") }

  function JsonMinifyPass(minify: string -> Option<string>): Transform { Transform(minify, false, "json_minify") }

  function PassStage(body: Body, segs: seq<Segment>, t: Transform): Stage {
    Pass((plan: Plan) => (plan.(proposals := RecodeAll(body, segs, t, plan.proposals)), Continue))
  }

  function InlineChain(body: Body, segs: seq<Segment>, minify: string -> Option<string>): seq<Stage> {
    [PassStage(body, segs, AnsiStripPass()), PassStage(body, segs, WhitespacePass()),
     PassStage(body, segs, JsonMinifyPass(minify))]
  }

  /** The text a segment's recode proposal carries. */
  function RecodedText(slot: Option<Proposal>): Option<string> {
    if slot.Some? && slot.value.strategy.Recode? then Some(slot.value.strategy.content) else None
  }

  // ---- the two agree ----

  /** What a slot holding `text` (raw if never rewritten) means for a leaf `raw`. */
  ghost predicate Carries(body: Body, seg: Segment, slot: Option<Proposal>, raw: string, text: string) {
    RawLeaf(body, seg) == Some(raw) &&
    match slot
    case None => text == raw
    case Some(p) => p.strategy == Strategy.Recode(text, None) && ByteLen(text) < ByteLen(raw)
  }

  /** One inline pass: it replaces the text exactly when its rewrite is shorter. */
  lemma InlineSlotStep(body: Body, seg: Segment, t: Transform, slot: Option<Proposal>, raw: string, text: string)
    requires Carries(body, seg, slot, raw, text) && !t.refBacked
    ensures var rewritten := t.rewrite(text);
            var text' := if rewritten.Some? && ByteLen(rewritten.value) < ByteLen(text) then rewritten.value else text;
            Carries(body, seg, SlotStep(body, seg, t, slot), raw, text')
  {
  }

  lemma StagedTexts(body: Body, seg: Segment, minify: string -> Option<string>, raw: string)
    requires RawLeaf(body, seg) == Some(raw)
    ensures var s1 := SlotStep(body, seg, AnsiStripPass(), None);
            var s2 := SlotStep(body, seg, WhitespacePass(), s1);
            var s3 := SlotStep(body, seg, JsonMinifyPass(minify), s2);
            RecodedText(s3) == FastLaneClean(raw, minify)
  {
    hide SlotStep, RawLeaf;
    var s1 := SlotStep(body, seg, AnsiStripPass(), None);
    var s2 := SlotStep(body, seg, WhitespacePass(), s1);
    var t1 := AnsiStrip.Strip(raw);
    AnsiStrip.StripShrinksOrKeeps(raw);
    InlineSlotStep(body, seg, AnsiStripPass(), None, raw, raw);
    assert Carries(body, seg, s1, raw, t1);

    var t2 := Whitespace.Normalize(t1);
    AnsiStrip.StripKeepsOnly(raw);
    assert Whitespace.NoCr(t1) by {
      forall i | 0 <= i < |t1| ensures t1[i] != '\r' { assert AnsiStrip.Keeps(t1[i]); }
    }
    Whitespace.NormalizeShrinksOrKeeps(t1);
    InlineSlotStep(body, seg, WhitespacePass(), s1, raw, t1);
    assert Carries(body, seg, s2, raw, t2);

    InlineSlotStep(body, seg, JsonMinifyPass(minify), s2, raw, t2);
  }

  /** For every leaf and every minifier, the staged passes run through the runner on an empty
      ledger propose exactly the fast lane's bytes, and propose nothing when it declines. */
  lemma FastLaneEqualsStagedChain(
    body: Body, segs: seq<Segment>, minify: string -> Option<string>, maxReverts: nat, k: nat)
    requires DistinctIndices(segs) && k < |segs|
    ensures RecodedText(Find(RunSpec(InlineChain(body, segs, minify), maxReverts, EMPTY).proposals, segs[k].index)) ==
            match RawLeaf(body, segs[k])
            case Some(raw) => FastLaneClean(raw, minify)
            case None => None
  {
    hide SlotStep, RawLeaf;
    var seg, chain := segs[k], InlineChain(body, segs, minify);
    var a, w, j := AnsiStripPass(), WhitespacePass(), JsonMinifyPass(minify);
    forall i | 0 <= i < |chain| ensures NeverReverts(chain[i]) { assert i == 0 || i == 1 || i == 2; }
    RunIsFold(chain, maxReverts, EMPTY);
    var p1 := RecodeAll(body, segs, a, []);
    var p2 := RecodeAll(body, segs, w, p1);
    var p3 := RecodeAll(body, segs, j, p2);
    FoldOfThree(chain[0], chain[1], chain[2], EMPTY);
    assert RunSpec(chain, maxReverts, EMPTY).proposals == p3;
    PassActsPerSegment(body, segs, a, [], k);
    PassActsPerSegment(body, segs, w, p1, k);
    PassActsPerSegment(body, segs, j, p2, k);
    if RawLeaf(body, seg).Some? {
      StagedTexts(body, seg, minify, RawLeaf(body, seg).value);
    } else {
      NoLeafNoProposal(body, seg, a);
      NoLeafNoProposal(body, seg, w);
      NoLeafNoProposal(body, seg, j);
    }
  }

  lemma FoldOfThree(a: Stage, b: Stage, c: Stage, plan: Plan)
    ensures Fold([a, b, c], plan) == Visit(c, Visit(b, Visit(a, plan).0).0).0
  {
    assert [a, b, c][1..] == [b, c] && [b, c][1..] == [c] && [c][1..] == [];
    assert Fold([c], Visit(b, Visit(a, plan).0).0) == Visit(c, Visit(b, Visit(a, plan).0).0).0;
    assert Fold([b, c], Visit(a, plan).0) == Fold([c], Visit(b, Visit(a, plan).0).0);
  }

  lemma NoLeafNoProposal(body: Body, seg: Segment, t: Transform)
    requires RawLeaf(body, seg).None?
    ensures SlotStep(body, seg, t, None) == None
  {
  }

  /** The runner's ledger is what the three pass loops leave on one. */
  method RunInlineChain(body: Body, segs: seq<Segment>, minify: string -> Option<string>, ledger: PlanLedger)
    modifies ledger
    ensures ledger.View() == Fold(InlineChain(body, segs, minify), old(ledger.View()))
  {
    ghost var plan := ledger.View();
    ApplyPass(body, segs, AnsiStripPass(), ledger);
    ApplyPass(body, segs, WhitespacePass(), ledger);
    ApplyPass(body, segs, JsonMinifyPass(minify), ledger);
    FoldOfThree(PassStage(body, segs, AnsiStripPass()), PassStage(body, segs, WhitespacePass()),
                PassStage(body, segs, JsonMinifyPass(minify)), plan);
  }
}
