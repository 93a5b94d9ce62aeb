/** The one text a deterministic pass may rewrite in a segment, and the one block a lane entry overwrites. */
module Leaves {
  import opened Basics
  import opened Wire
  import opened Segmentation
  import opened SegmentFields
  import opened Recode
  import opened FastLane
  import opened Targets
  import Ledger

  // ---- one of its kind among blocks ----

  predicate IsResult(b: Block) { b.Object? && "type" in b.fields && b.fields["type"] == Str("tool_result") }

  /** The text of a result whose content is a string. */
  function ReadResult(b: Block): Option<string> {
    if IsResult(b) && "content" in b.fields && b.fields["content"].Str? then Some(b.fields["content"].s) else None
  }

  function ReadText(b: Block): Option<string> {
    if b.Object? && "type" in b.fields && b.fields["type"] == Str("text") && "text" in b.fields && b.fields["text"].Str?
    then Some(b.fields["text"].s) else None
  }

  /** A result of more than 256 bytes on the wire. */
  function LargeResult(b: Block): Option<string> {
    if IsResult(b) && ByteLen(b.raw) > 256 then Some(b.raw) else None
  }

  /** Block `j` alone reads as anything, and reads as `text`. */
  ghost predicate Sole(bs: seq<Block>, read: Block -> Option<string>, j: int, text: string) {
    0 <= j < |bs| && read(bs[j]) == Some(text) && forall k :: 0 <= k < |bs| && read(bs[k]).Some? ==> k == j
  }

  function Reads(bs: seq<Block>, read: Block -> Option<string>): seq<string> {
    if bs == [] then []
    else (match read(bs[0]) case Some(text) => [text] case None => []) + Reads(bs[1..], read)
  }

  lemma {:induction false} NothingReadIff(bs: seq<Block>, read: Block -> Option<string>)
    ensures Reads(bs, read) == [] <==> forall k :: 0 <= k < |bs| ==> read(bs[k]).None?
  {
    if bs != [] {
      NothingReadIff(bs[1..], read);
      assert forall k :: 0 < k < |bs| ==> bs[k] == bs[1..][k - 1];
      if Reads(bs, read) == [] {
        forall k | 0 <= k < |bs| ensures read(bs[k]).None? { if k > 0 { assert bs[1..][k - 1] == bs[k]; } }
      }
    }
  }

  lemma {:induction false} SoleIff(bs: seq<Block>, read: Block -> Option<string>, text: string)
    ensures Reads(bs, read) == [text] <==> exists j :: Sole(bs, read, j, text)
  {
    if bs != [] {
      var rest := bs[1..];
      SoleIff(rest, read, text);
      NothingReadIff(rest, read);
      assert forall k :: 0 <= k < |rest| ==> rest[k] == bs[k + 1];
      if read(bs[0]).Some? {
        var all := Reads(bs, read);
        assert all == [read(bs[0]).value] + Reads(rest, read);
        assert all[0] == read(bs[0]).value && all[1..] == Reads(rest, read);
        assert all == [text] ==> all[1..] == [];
        HeadIsSole(bs, read, text);
      } else {
        assert Reads(bs, read) == Reads(rest, read);
        TailIsSole(bs, read, text);
      }
    } else {
      assert Reads(bs, read) == [];
    }
  }

  lemma HeadIsSole(bs: seq<Block>, read: Block -> Option<string>, text: string)
    requires bs != [] && read(bs[0]).Some?
    ensures (exists j :: Sole(bs, read, j, text)) <==>
            read(bs[0]) == Some(text) && forall k :: 0 <= k < |bs[1..]| ==> read(bs[1..][k]).None?
  {
    assert forall k :: 0 <= k < |bs[1..]| ==> bs[1..][k] == bs[k + 1];
    if read(bs[0]) == Some(text) && forall k :: 0 <= k < |bs[1..]| ==> read(bs[1..][k]).None? {
      forall k | 0 < k < |bs| ensures read(bs[k]).None? { assert bs[1..][k - 1] == bs[k]; }
      assert Sole(bs, read, 0, text);
    }
  }

  lemma TailIsSole(bs: seq<Block>, read: Block -> Option<string>, text: string)
    requires bs != [] && read(bs[0]).None?
    ensures (exists j :: Sole(bs, read, j, text)) <==> exists j :: Sole(bs[1..], read, j, text)
  {
    assert forall k :: 0 <= k < |bs[1..]| ==> bs[1..][k] == bs[k + 1];
    if j :| Sole(bs, read, j, text) { assert Sole(bs[1..], read, j - 1, text); }
    if j :| Sole(bs[1..], read, j, text) {
      forall k | 0 <= k < |bs| && read(bs[k]).Some? ensures k == j + 1 { assert k > 0 && bs[1..][k - 1] == bs[k]; }
      assert Sole(bs, read, j + 1, text);
    }
  }

  lemma {:induction false} ResultTextsAreRead(bs: seq<Block>)
    ensures ResultTexts(bs) == Reads(bs, ReadResult)
  {
    if bs != [] { ResultTextsAreRead(bs[1..]); }
  }

  lemma {:induction false} BlockTextsAreRead(bs: seq<Block>)
    ensures BlockTexts(bs) == Reads(bs, ReadText)
  {
    if bs != [] { BlockTextsAreRead(bs[1..]); }
  }

  lemma {:induction false} LargeResultsAreRead(bs: seq<Block>)
    ensures LargeResults(bs) == |Reads(bs, LargeResult)|
  {
    if bs != [] { LargeResultsAreRead(bs[1..]); }
  }

  ghost predicate OneLarge(bs: seq<Block>) { exists j, raw :: Sole(bs, LargeResult, j, raw) }

  lemma OneLargeIff(bs: seq<Block>)
    ensures LargeResults(bs) == 1 <==> OneLarge(bs)
  {
    LargeResultsAreRead(bs);
    var rs := Reads(bs, LargeResult);
    if |rs| == 1 {
      assert rs == [rs[0]];
      SoleIff(bs, LargeResult, rs[0]);
    }
    if j, raw :| Sole(bs, LargeResult, j, raw) { SoleIff(bs, LargeResult, raw); }
  }

  // ---- the leaf ----

  /** The results a tool pair's leaf is looked for in. */
  function Results(body: Body, seg: Segment): seq<Block> {
    if |seg.sources| == 2 && seg.sources[1] < |body.messages| then BlocksOf(body.messages[seg.sources[1]].content)
    else []
  }

  lemma PairsAreAnswered(body: Body, k: nat)
    requires k < |Segments(body)| && Segments(body)[k].kind == ToolPair
    ensures var seg, msgs := Segments(body)[k], body.messages;
            |seg.sources| == 2 && seg.sources[0] < |msgs| && seg.sources[1] < |msgs| &&
            msgs[seg.sources[0]].role == Assistant && msgs[seg.sources[1]].role == User
    ensures UserBlocks(body.messages, Segments(body)[k].sources) == Results(body, Segments(body)[k])
  {
    hide Segments, Reading, Estimates, WireBytes, Calls, Answers;
    var seg, msgs := Segments(body)[k], body.messages;
    assert k >= HeadSegments(body) by { PreambleIsHead(body); SegmentShape(body, k); }
    SegmentIsItsMessages(body, k);
    assert seg.sources == [seg.sources[0], seg.sources[1]];
    var rest := seg.sources[1..];
    assert rest == [seg.sources[1]] && rest[1..] == [];
    assert UserBlocks(msgs, []) == [];
    assert UserBlocks(msgs, rest) == BlocksOf(msgs[seg.sources[1]].content) + [];
    assert [] + UserBlocks(msgs, rest) == UserBlocks(msgs, rest);
  }

  /** A tool pair has a leaf when it may be rewritten, exactly one of its results reads as a string, of more
      than 256 bytes, and exactly one is large. */
  lemma PairLeafIff(body: Body, k: nat, leaf: string)
    requires k < |Segments(body)| && Segments(body)[k].kind == ToolPair
    ensures var seg := Segments(body)[k];
            FastLaneLeaf(body, seg) == RawLeaf(body, seg) &&
            (RawLeaf(body, seg) == Some(leaf) <==>
             !seg.pinned && !seg.isTrueHuman && ByteLen(leaf) > 256 &&
             (exists j :: Sole(Results(body, seg), ReadResult, j, leaf)) && OneLarge(Results(body, seg)))
  {
    hide Segments, Sole, Results, OneLarge;
    var bs := Results(body, Segments(body)[k]);
    PairsAreAnswered(body, k);
    ResultTextsAreRead(bs);
    SoleIff(bs, ReadResult, leaf);
    OneLargeIff(bs);
    hide ResultTexts, LargeResults;
  }

  /** Any other segment of one message: the whole string, or the only text of a user or assistant turn. */
  lemma TurnLeafIff(body: Body, seg: Segment, leaf: string)
    requires seg.kind != ToolPair
    ensures FastLaneLeaf(body, seg) == None
    ensures RawLeaf(body, seg) == Some(leaf) <==>
            !seg.pinned && !seg.isTrueHuman && ByteLen(leaf) > 256 && |seg.sources| == 1 &&
            seg.sources[0] < |body.messages| &&
            match body.messages[seg.sources[0]].content
            case Text(_, text) => leaf == text
            case Blocks(bs) =>
              (seg.kind == UserTurn || seg.kind == AssistantTurn) && exists j :: Sole(bs, ReadText, j, leaf)
  {
    hide Sole;
    if |seg.sources| == 1 && seg.sources[0] < |body.messages| && body.messages[seg.sources[0]].content.Blocks? {
      var bs := body.messages[seg.sources[0]].content.blocks;
      BlockTextsAreRead(bs);
      SoleIff(bs, ReadText, leaf);
    }
    hide BlockTexts;
  }

  /** As JSON text does, a block takes at least the bytes of the string it holds. */
  ghost predicate RawsHoldTexts(bs: seq<Block>) {
    forall j :: 0 <= j < |bs| && ReadResult(bs[j]).Some? ==> ByteLen(bs[j].raw) >= ByteLen(ReadResult(bs[j]).value)
  }

  /** What a lane entry overwrites is exactly the result its leaf was read from: no sibling is a target. */
  lemma LaneTargetIsTheLeaf(body: Body, k: nat, leaf: string, t: Target) returns (j: nat)
    requires k < |Segments(body)| && FastLaneLeaf(body, Segments(body)[k]) == Some(leaf)
    requires RawsHoldTexts(Results(body, Segments(body)[k]))
    requires t in SquashTargets(body, Segments(body)[k])
    ensures var seg := Segments(body)[k];
            |seg.sources| == 2 && t.message == seg.sources[1] && t.block == Some(j) &&
            Sole(Results(body, seg), ReadResult, j, leaf)
  {
    hide Segments, SquashTargets, RawLeaf;
    var seg := Segments(body)[k];
    var bs := Results(body, seg);
    PairLeafIff(body, k, leaf);
    PairsAreAnswered(body, k);
    SquashTargetsIff(body, seg, t);
    TargetIsLarge(body, seg, t);
    var j', raw :| Sole(bs, LargeResult, j', raw);
    var read :| Sole(bs, ReadResult, read, leaf);
    j := read;
    assert LargeResult(bs[j]).Some?;
    assert LargeResult(bs[t.block.value]).Some?;
  }

  lemma TargetIsLarge(body: Body, seg: Segment, t: Target)
    requires OffersTarget(body, seg, t) && seg.kind == ToolPair && |seg.sources| == 2
    requires seg.sources[0] < |body.messages| && body.messages[seg.sources[0]].role == Assistant
    ensures t.message == seg.sources[1] && t.block.Some? && t.block.value < |Results(body, seg)| &&
            LargeResult(Results(body, seg)[t.block.value]).Some?
  {
  }

  // ---- what one pass proposes ----

  /** The text a pass reads: the raw leaf, or what an earlier recode made of it, with the original kept. */
  function Current(body: Body, seg: Segment, slot: Option<Ledger.Proposal>): Option<(string, Option<string>)> {
    if seg.pinned || seg.isTrueHuman then None
    else
      match slot
      case None => (match RawLeaf(body, seg) case Some(text) => Some((text, None)) case None => None)
      case Some(p) => if p.strategy.Recode? then Some((p.strategy.content, p.needsRef)) else None
  }

  /** A pass replaces a segment's proposal exactly when its rewrite of the current text is shorter in bytes:
      the tokens saved are the difference of the two estimates, a ref once asked for keeps its original, and
      a ref-backed pass asks for one. */
  lemma StepIs(body: Body, seg: Segment, t: Transform, slot: Option<Ledger.Proposal>)
    ensures var now := Current(body, seg, slot);
            var text := if now.Some? then t.rewrite(now.value.0) else None;
            SlotStep(body, seg, t, slot) ==
            if text.Some? && ByteLen(text.value) < ByteLen(now.value.0) then
              Some(Ledger.Proposal(
                     seg.index, Ledger.Strategy.Recode(text.value, None), None,
                     if t.refBacked && now.value.1.None? then Some(now.value.0) else now.value.1,
                     EstimateTokens(now.value.0) - EstimateTokens(text.value), t.author))
            else slot
  {
    hide RawLeaf, ByteLen, EstimateTokens;
    assert RawLeaf(body, seg).Some? ==> !Exempt(seg) by { var _ := RawLeaf(body, seg); }
  }
}
