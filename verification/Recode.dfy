/** The leaf a deterministic pass may rewrite, and the proposals such passes make. */
module Recode {
  import opened Basics
  import opened Wire
  import opened Segmentation
  import opened Ledger

  const MIN_RECODE_SPAN := 256
  const MIN_BLOCK_SPAN := 256

  /** The decoded text of a `tool_result` whose content is a string. */
  function ToolResultText(b: Block): Option<string> {
    if b.Object? then StringField(b.fields, "content") else None
  }

  function TextOfBlock(b: Block): Option<string> {
    if Kind(b) == TextBlock then StringField(b.fields, "text") else None
  }

  function ResultTexts(bs: seq<Block>): seq<string> {
    if bs == [] then []
    else
      (if Kind(bs[0]) == ToolResult && ToolResultText(bs[0]).Some? then [ToolResultText(bs[0]).value] else []) +
      ResultTexts(bs[1..])
  }

  function BlockTexts(bs: seq<Block>): seq<string> {
    if bs == [] then []
    else (if TextOfBlock(bs[0]).Some? then [TextOfBlock(bs[0]).value] else []) + BlockTexts(bs[1..])
  }

  function LargeResults(bs: seq<Block>): nat {
    if bs == [] then 0
    else (if Kind(bs[0]) == ToolResult && ByteLen(bs[0].raw) > MIN_BLOCK_SPAN then 1 else 0) + LargeResults(bs[1..])
  }

  /** The blocks of the user messages among `sources`, in order. */
  function UserBlocks(msgs: seq<Message>, sources: seq<nat>): seq<Block> {
    if sources == [] then []
    else
      (if sources[0] < |msgs| && msgs[sources[0]].role == User then BlocksOf(msgs[sources[0]].content) else []) +
      UserBlocks(msgs, sources[1..])
  }

  function SingleContent(body: Body, seg: Segment): Option<Content> {
    if |seg.sources| == 1 && seg.sources[0] < |body.messages| then Some(body.messages[seg.sources[0]].content) else None
  }

  function LeafStrings(body: Body, seg: Segment): seq<string> {
    match seg.kind
    case ToolPair => ResultTexts(UserBlocks(body.messages, seg.sources))
    case AssistantTurn | UserTurn =>
      (match SingleContent(body, seg)
       case Some(Text(_, text)) => [text]
       case Some(Blocks(bs)) => BlockTexts(bs)
       case None => [])
    case _ =>
      (match SingleContent(body, seg)
       case Some(Text(_, text)) => [text]
       case _ => [])
  }

  /** A tool pair with a second large result would take the recode in that sibling too. */
  predicate SoleSquashTarget(body: Body, seg: Segment) {
    seg.kind == ToolPair ==> LargeResults(UserBlocks(body.messages, seg.sources)) == 1
  }

  predicate Exempt(seg: Segment) { seg.pinned || seg.isTrueHuman }

  /** The leaf as it stands on the wire, whatever the passes have proposed. */
  function RawLeaf(body: Body, seg: Segment): (leaf: Option<string>)
    ensures leaf.Some? ==> !Exempt(seg) && ByteLen(leaf.value) > MIN_RECODE_SPAN
  {
    if Exempt(seg) then None
    else
      var ls := LeafStrings(body, seg);
      if |ls| == 1 && ByteLen(ls[0]) > MIN_RECODE_SPAN && SoleSquashTarget(body, seg) then Some(ls[0]) else None
  }

  /** What a pass reads: the current text of the leaf and the original an earlier pass stored. */
  datatype Leaf = Leaf(content: string, tokens: nat, carried: Option<string>)

  function LeafFrom(body: Body, seg: Segment, slot: Option<Proposal>): Option<Leaf> {
    if Exempt(seg) then None
    else
      match slot
      case None =>
        (match RawLeaf(body, seg)
         case Some(text) => Some(Leaf(text, EstimateTokens(text), None))
         case None => None)
      case Some(p) =>
        if p.strategy.Recode? then
          Some(Leaf(p.strategy.content, EstimateTokens(p.strategy.content), p.needsRef))
        else None
  }

  function RecodeProposal(seg: Segment, leaf: Leaf, text: string, needsRef: Option<string>, author: string): Proposal {
    Proposal(seg.index, Strategy.Recode(text, None), None, needsRef, leaf.tokens as int - EstimateTokens(text) as int,
        author)
  }

  function InlineRecode(seg: Segment, leaf: Leaf, text: string, author: string): Option<Proposal> {
    if ByteLen(text) < ByteLen(leaf.content) then Some(RecodeProposal(seg, leaf, text, leaf.carried, author)) else None
  }

  function RefRecode(seg: Segment, leaf: Leaf, text: string, original: string, author: string): Option<Proposal> {
    if ByteLen(text) < ByteLen(leaf.content) then
      Some(RecodeProposal(seg, leaf, text, Some(if leaf.carried.Some? then leaf.carried.value else original), author))
    else None
  }

  /** A per-leaf rewrite: any function of the leaf text, inline or backed by a stored original. */
  datatype Transform = Transform(rewrite: string -> Option<string>, refBacked: bool, author: string)

  function Propose(seg: Segment, leaf: Leaf, t: Transform): Option<Proposal> {
    match t.rewrite(leaf.content)
    case None => None
    case Some(text) =>
      if t.refBacked then RefRecode(seg, leaf, text, leaf.content, t.author)
          else InlineRecode(seg, leaf, text, t.author)
  }

  /** What one pass makes of one segment's proposal. */
  function SlotStep(body: Body, seg: Segment, t: Transform, slot: Option<Proposal>): Option<Proposal> {
    match LeafFrom(body, seg, slot)
    case None => slot
    case Some(leaf) => (match Propose(seg, leaf, t) case Some(p) => Some(p) case None => slot)
  }

  function RecodeOne(body: Body, seg: Segment, t: Transform, ps: seq<Proposal>): seq<Proposal> {
    var slot := Find(ps, seg.index);
    var slot' := SlotStep(body, seg, t, slot);
    if slot' == slot then ps else Upsert(ps, slot'.value)
  }

  function RecodeAll(body: Body, segs: seq<Segment>, t: Transform, ps: seq<Proposal>): seq<Proposal> {
    if segs == [] then ps else RecodeAll(body, segs[1..], t, RecodeOne(body, segs[0], t, ps))
  }

  /** The loop every recode pass runs over the segments. */
  method ApplyPass(body: Body, segs: seq<Segment>, t: Transform, ledger: PlanLedger)
    modifies ledger`proposals
    ensures ledger.proposals == RecodeAll(body, segs, t, old(ledger.proposals))
  {
    var i := 0;
    while i < |segs|
      invariant i <= |segs|
      invariant RecodeAll(body, segs[i..], t, ledger.proposals) == RecodeAll(body, segs, t, old(ledger.proposals))
    {
      hide LeafFrom, Propose;
      var seg := segs[i];
      ghost var before := ledger.proposals;
      assert segs[i..][1..] == segs[i + 1..];
      var slot := ledger.ProposalFor(seg.index);
      var leaf := LeafFrom(body, seg, slot);
      if leaf.Some? {
        var proposal := Propose(seg, leaf.value, t);
        if proposal.Some? {
          ProposalIsForSegment(seg, leaf.value, t);
          ledger.UpsertProposal(proposal.value);
          UpsertOfCurrent(before, proposal.value);
        }
      }
      assert ledger.proposals == RecodeOne(body, seg, t, before);
      i := i + 1;
    }
  }

  lemma ProposalIsForSegment(seg: Segment, leaf: Leaf, t: Transform)
    ensures var p := Propose(seg, leaf, t);
            p.Some? ==> p.value.segIndex == seg.index && p.value.strategy.Recode? &&
                        ByteLen(p.value.strategy.content) < ByteLen(leaf.content)
  {
  }

  lemma UpsertOfCurrent(ps: seq<Proposal>, p: Proposal)
    ensures Find(ps, p.segIndex) == Some(p) ==> Upsert(ps, p) == ps
  {
  }

  // ---- passes act segment by segment ----

  ghost predicate DistinctIndices(segs: seq<Segment>) {
    forall i, j :: 0 <= i < j < |segs| ==> segs[i].index != segs[j].index
  }

  lemma RecodeOneActsOnItsSlot(body: Body, seg: Segment, t: Transform, ps: seq<Proposal>, k: nat)
    ensures Find(RecodeOne(body, seg, t, ps), k) ==
            if k == seg.index then SlotStep(body, seg, t, Find(ps, k)) else Find(ps, k)
  {
    var slot := Find(ps, seg.index);
    var leaf := LeafFrom(body, seg, slot);
    if leaf.Some? {
      ProposalIsForSegment(seg, leaf.value, t);
      var p := Propose(seg, leaf.value, t);
      if p.Some? { FindAfterUpsert(ps, p.value, k); }
    }
  }

  lemma {:induction false} RecodeAllLeavesOthers(
    body: Body, segs: seq<Segment>, t: Transform, ps: seq<Proposal>, k: nat)
    requires forall i :: 0 <= i < |segs| ==> segs[i].index != k
    ensures Find(RecodeAll(body, segs, t, ps), k) == Find(ps, k)
  {
    if segs != [] {
      RecodeOneActsOnItsSlot(body, segs[0], t, ps, k);
      RecodeAllLeavesOthers(body, segs[1..], t, RecodeOne(body, segs[0], t, ps), k);
    }
  }

  /** A pass does to each segment's proposal what it would do to that segment alone. */
  lemma {:induction false} PassActsPerSegment(body: Body, segs: seq<Segment>, t: Transform, ps: seq<Proposal>, k: nat)
    requires DistinctIndices(segs) && k < |segs|
    ensures Find(RecodeAll(body, segs, t, ps), segs[k].index) ==
            SlotStep(body, segs[k], t, Find(ps, segs[k].index))
  {
    hide SlotStep;
    var ps' := RecodeOne(body, segs[0], t, ps);
    RecodeOneActsOnItsSlot(body, segs[0], t, ps, segs[k].index);
    if k == 0 {
      RecodeAllLeavesOthers(body, segs[1..], t, ps', segs[0].index);
    } else {
      PassActsPerSegment(body, segs[1..], t, ps', k - 1);
    }
  }
}
