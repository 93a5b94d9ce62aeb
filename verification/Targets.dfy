/** Which blocks of a body may be overwritten, and what overwrites them. */
module Targets {
  import opened Basics
  import opened Wire
  import opened Segmentation
  import opened Recode

  datatype ReplacementKind = StringContent | ResultBlock(toolUseId: string, isError: bool) | PlainText

  /** One replaceable place: a whole string content (no block) or one block. */
  datatype Target = Target(message: nat, block: Option<nat>, originalLen: nat, kind: ReplacementKind)

  /** `is_error` and `content` decode as the result reader expects. */
  predicate ResultFieldsDecode(f: Fields) {
    ("is_error" in f ==> f["is_error"].Null? || f["is_error"].Bool?) &&
    ("content" in f ==> !f["content"].Bool? && !f["content"].Opaque?)
  }

  function IsError(f: Fields): bool { "is_error" in f && f["is_error"].Bool? && f["is_error"].b }

  /** The target a single block offers; in a tool pair only results are offered. */
  function BlockTarget(message: nat, index: nat, b: Block, resultsOnly: bool): Option<Target> {
    if ByteLen(b.raw) <= MIN_BLOCK_SPAN then None
    else if Kind(b) == ToolResult then
      (if ToolUseId(b).Some? && ResultFieldsDecode(b.fields)
       then Some(Target(message, Some(index), ByteLen(b.raw), ResultBlock(ToolUseId(b).value, IsError(b.fields))))
       else None)
    else if Kind(b) == TextBlock && !resultsOnly then Some(Target(message, Some(index), ByteLen(b.raw), PlainText))
    else None
  }

  /** The targets among blocks `from..`. */
  function BlockTargets(message: nat, bs: seq<Block>, from: nat, resultsOnly: bool): seq<Target>
    requires from <= |bs|
    decreases |bs| - from
  {
    if from == |bs| then []
    else
      var t := BlockTarget(message, from, bs[from], resultsOnly);
      (if t.Some? then [t.value] else []) + BlockTargets(message, bs, from + 1, resultsOnly)
  }

  function StringTarget(message: nat, raw: string): seq<Target> {
    if ByteLen(raw) > MIN_BLOCK_SPAN then [Target(message, None, ByteLen(raw), StringContent)] else []
  }

  function ResultTargets(body: Body, sources: seq<nat>): seq<Target> {
    if sources == [] then []
    else
      var m := sources[0];
      (if m < |body.messages| && body.messages[m].role == User
       then BlockTargets(m, BlocksOf(body.messages[m].content), 0, true) else []) +
      ResultTargets(body, sources[1..])
  }

  function SquashTargets(body: Body, seg: Segment): seq<Target> {
    if seg.kind == ToolPair then ResultTargets(body, seg.sources)
    else if |seg.sources| != 1 || seg.sources[0] >= |body.messages| then []
    else
      var m := seg.sources[0];
      match body.messages[m].content
      case Text(raw, _) => StringTarget(m, raw)
      case Blocks(bs) => if seg.kind == AssistantTurn || seg.kind == UserTurn then BlockTargets(m, bs, 0, false) else []
  }

  /** How JSON values are printed back: any functions. */
  datatype Printer = Printer(block: Fields -> string, text: string -> string)

  function TextFields(text: string): Fields { map["type" := Str("text"), "text" := Str(text)] }

  function ResultFields(id: string, isError: bool, text: string): Fields {
    map["type" := Str("tool_result"), "tool_use_id" := Str(id), "is_error" := Bool(isError), "content" := Str(text)]
  }

  /** The block put in place of a target; a whole string content becomes a one-block array. */
  function Replacement(kind: ReplacementKind, text: string, printer: Printer): Block {
    var f := match kind
             case ResultBlock(id, isError) => ResultFields(id, isError, text)
             case _ => TextFields(text);
    Object(printer.block(f), f)
  }

  /** The bytes printed for it: a one-block array has its brackets too. */
  function PrintedLen(kind: ReplacementKind, text: string, printer: Printer): nat {
    ByteLen(Replacement(kind, text, printer).raw) + if kind.StringContent? then 2 else 0
  }

  datatype Rendered = Rendered(message: nat, at: Option<nat>, block: Block)

  function Render(t: Target, text: string, printer: Printer): Rendered {
    Rendered(t.message, t.block, Replacement(t.kind, text, printer))
  }

  /** One rendering per target that is given a text. */
  function RenderTargets(ts: seq<Target>, texts: Target -> Option<string>, printer: Printer): seq<Rendered> {
    if ts == [] then []
    else
      (match texts(ts[0]) case Some(text) => [Render(ts[0], text, printer)] case None => []) +
      RenderTargets(ts[1..], texts, printer)
  }

  // ---- renderings keep the tool pairing of what they replace ----

  /** `b'` plays the same part in tool pairing as `b`. */
  predicate SamePairing(b: Block, b': Block) {
    (Kind(b) == ToolUse <==> Kind(b') == ToolUse) && (Kind(b) == ToolResult <==> Kind(b') == ToolResult) &&
    (Kind(b) == ToolUse || Kind(b) == ToolResult ==> ToolUseId(b) == ToolUseId(b'))
  }

  predicate NoPairing(b: Block) { Kind(b) != ToolUse && Kind(b) != ToolResult }

  /** The rendering has a place in the body and keeps its part in the pairing. */
  predicate Fits(r: Rendered, msgs: seq<Message>) {
    r.message < |msgs| &&
    match r.at
    case None => msgs[r.message].content.Text? && NoPairing(r.block)
    case Some(j) =>
      msgs[r.message].content.Blocks? && j < |msgs[r.message].content.blocks| &&
      SamePairing(msgs[r.message].content.blocks[j], r.block)
  }

  ghost predicate AllFit(rs: seq<Rendered>, msgs: seq<Message>) { forall k :: 0 <= k < |rs| ==> Fits(rs[k], msgs) }

  /** The target exists in the body and names the block it replaces. */
  predicate Offered(t: Target, msgs: seq<Message>) {
    t.message < |msgs| && t.originalLen > MIN_BLOCK_SPAN &&
    match t.block
    case None => msgs[t.message].content.Text? && t.kind == StringContent
    case Some(j) =>
      msgs[t.message].content.Blocks? && j < |msgs[t.message].content.blocks| &&
      var b := msgs[t.message].content.blocks[j];
      t.originalLen == ByteLen(b.raw) &&
      ((t.kind == PlainText && Kind(b) == TextBlock) ||
       (t.kind.ResultBlock? && Kind(b) == ToolResult && ToolUseId(b) == Some(t.kind.toolUseId)))
  }

  lemma {:induction false} BlockTargetsOffered(body: Body, m: nat, from: nat, resultsOnly: bool, k: nat)
    requires m < |body.messages| && from <= |BlocksOf(body.messages[m].content)|
    requires k < |BlockTargets(m, BlocksOf(body.messages[m].content), from, resultsOnly)|
    ensures var t := BlockTargets(m, BlocksOf(body.messages[m].content), from, resultsOnly)[k];
            Offered(t, body.messages) && t.message == m && t.block.Some? && from <= t.block.value
    decreases |BlocksOf(body.messages[m].content)| - from
  {
    hide Kind, ToolUseId, ResultFieldsDecode;
    var bs := BlocksOf(body.messages[m].content);
    var t := BlockTarget(m, from, bs[from], resultsOnly);
    if t.None? {
      BlockTargetsOffered(body, m, from + 1, resultsOnly, k);
    } else if k > 0 {
      BlockTargetsOffered(body, m, from + 1, resultsOnly, k - 1);
    }
  }

  lemma {:induction false} ResultTargetsOffered(body: Body, sources: seq<nat>, k: nat)
    requires k < |ResultTargets(body, sources)|
    ensures Offered(ResultTargets(body, sources)[k], body.messages)
    ensures ResultTargets(body, sources)[k].message in sources
  {
    hide Offered, BlockTargets;
    var m := sources[0];
    var head := if m < |body.messages| && body.messages[m].role == User
                then BlockTargets(m, BlocksOf(body.messages[m].content), 0, true) else [];
    if k < |head| {
      BlockTargetsOffered(body, m, 0, true, k);
    } else {
      ResultTargetsOffered(body, sources[1..], k - |head|);
    }
  }

  /** Every squash target is a real place of the body, in a message of its own segment. */
  lemma SquashTargetsOffered(body: Body, seg: Segment, k: nat)
    requires k < |SquashTargets(body, seg)|
    ensures Offered(SquashTargets(body, seg)[k], body.messages)
    ensures SquashTargets(body, seg)[k].message in seg.sources
  {
    hide BlockTargets;
    if seg.kind == ToolPair {
      ResultTargetsOffered(body, seg.sources, k);
    } else {
      var m := seg.sources[0];
      match body.messages[m].content {
        case Text(_, _) =>
        case Blocks(_) => BlockTargetsOffered(body, m, 0, false, k);
      }
    }
  }

  // ---- which places are offered ----

  /** The block stands at its place as a target: a result that can be read, or a text outside tool pairs,
      of more than 256 bytes. */
  predicate OffersBlock(t: Target, b: Block, inPair: bool) {
    ByteLen(b.raw) > 256 && t.originalLen == ByteLen(b.raw) &&
    match t.kind
    case ResultBlock(id, isError) =>
      b.Object? && "type" in b.fields && b.fields["type"] == Str("tool_result") &&
      "tool_use_id" in b.fields && b.fields["tool_use_id"] == Str(id) &&
      ("id" in b.fields ==> b.fields["id"].Null? || b.fields["id"].Str?) &&
      ("name" in b.fields ==> b.fields["name"].Null? || b.fields["name"].Str?) &&
      ("is_error" in b.fields ==> b.fields["is_error"].Null? || b.fields["is_error"].Bool?) &&
      ("content" in b.fields ==> b.fields["content"].Null? || b.fields["content"].Str? || b.fields["content"].Array?) &&
      (isError <==> "is_error" in b.fields && b.fields["is_error"] == Bool(true))
    case PlainText => !inPair && b.Object? && "type" in b.fields && b.fields["type"] == Str("text")
    case StringContent => false
  }

  /** In a tool pair, the results of its user message; in any other one-message segment the whole string,
      or the texts and results of a user or assistant turn. */
  predicate OffersTarget(body: Body, seg: Segment, t: Target) {
    t.message in seg.sources && t.message < |body.messages| &&
    var m := body.messages[t.message];
    (seg.kind == ToolPair || |seg.sources| == 1) &&
    match t.block
    case Some(j) =>
      m.content.Blocks? && j < |m.content.blocks| && OffersBlock(t, m.content.blocks[j], seg.kind == ToolPair) &&
      (if seg.kind == ToolPair then m.role == User else seg.kind == UserTurn || seg.kind == AssistantTurn)
    case None =>
      seg.kind != ToolPair && m.content.Text? && t.kind == StringContent && t.originalLen == ByteLen(m.content.raw) &&
      ByteLen(m.content.raw) > 256
  }

  lemma BlockTargetIff(m: nat, j: nat, b: Block, resultsOnly: bool, t: Target)
    ensures BlockTarget(m, j, b, resultsOnly) == Some(t) <==>
            t.message == m && t.block == Some(j) && OffersBlock(t, b, resultsOnly)
  {
  }

  lemma {:induction false} BlockTargetsIff(m: nat, bs: seq<Block>, from: nat, resultsOnly: bool, t: Target)
    requires from <= |bs|
    ensures t in BlockTargets(m, bs, from, resultsOnly) <==>
            t.message == m && t.block.Some? && from <= t.block.value < |bs| &&
            OffersBlock(t, bs[t.block.value], resultsOnly)
    decreases |bs| - from
  {
    hide BlockTarget, OffersBlock;
    if from < |bs| {
      var head, rest := BlockTarget(m, from, bs[from], resultsOnly), BlockTargets(m, bs, from + 1, resultsOnly);
      BlockTargetsIff(m, bs, from + 1, resultsOnly, t);
      BlockTargetIff(m, from, bs[from], resultsOnly, t);
      NextTarget(head, rest, t);
      assert BlockTargets(m, bs, from, resultsOnly) == (if head.Some? then [head.value] else []) + rest;
      hide BlockTargets;
      if t.block == Some(from) { assert t in rest ==> false; }
    }
  }

  lemma NextTarget(head: Option<Target>, rest: seq<Target>, t: Target)
    ensures t in (if head.Some? then [head.value] else []) + rest <==> head == Some(t) || t in rest
  {
  }

  lemma {:induction false} ResultTargetsIff(body: Body, sources: seq<nat>, t: Target)
    ensures t in ResultTargets(body, sources) <==>
            t.message in sources && t.message < |body.messages| && body.messages[t.message].role == User &&
            t in BlockTargets(t.message, BlocksOf(body.messages[t.message].content), 0, true)
  {
    hide BlockTargets, OffersBlock;
    if sources != [] {
      ResultTargetsIff(body, sources[1..], t);
      var m := sources[0];
      if m < |body.messages| { BlockTargetsIff(m, BlocksOf(body.messages[m].content), 0, true, t); }
      assert sources == [m] + sources[1..];
    }
  }

  /** Every place that qualifies is offered, and no other. */
  lemma SquashTargetsIff(body: Body, seg: Segment, t: Target)
    ensures t in SquashTargets(body, seg) <==> OffersTarget(body, seg, t)
  {
    hide BlockTargets, OffersBlock, ResultTargets;
    if seg.kind == ToolPair {
      ResultTargetsIff(body, seg.sources, t);
      if t.message < |body.messages| {
        BlockTargetsIff(t.message, BlocksOf(body.messages[t.message].content), 0, true, t);
      }
    } else if |seg.sources| == 1 && seg.sources[0] < |body.messages| {
      var m := seg.sources[0];
      BlockTargetsIff(m, BlocksOf(body.messages[m].content), 0, false, t);
    }
  }

  /** A place of a segment is offered in one way only. */
  lemma OnePlaceOneTarget(body: Body, seg: Segment, t: Target, t': Target)
    requires t in SquashTargets(body, seg) && t' in SquashTargets(body, seg)
    requires t.message == t'.message && t.block == t'.block
    ensures t == t'
  {
    hide SquashTargets;
    SquashTargetsIff(body, seg, t);
    SquashTargetsIff(body, seg, t');
  }

  lemma ReplacementKeepsPairing(kind: ReplacementKind, text: string, printer: Printer)
    ensures var b := Replacement(kind, text, printer);
            if kind.ResultBlock? then Kind(b) == ToolResult && ToolUseId(b) == Some(kind.toolUseId)
            else Kind(b) == TextBlock
  {
  }

  lemma RenderFits(t: Target, text: string, printer: Printer, msgs: seq<Message>)
    requires Offered(t, msgs)
    ensures Fits(Render(t, text, printer), msgs)
  {
    hide Kind, ToolUseId, Replacement;
    ReplacementKeepsPairing(t.kind, text, printer);
  }

  lemma {:induction false} RenderTargetsFit(
    ts: seq<Target>, texts: Target -> Option<string>, printer: Printer, msgs: seq<Message>)
    requires forall k :: 0 <= k < |ts| ==> Offered(ts[k], msgs)
    ensures AllFit(RenderTargets(ts, texts, printer), msgs)
  {
    hide Offered, Fits, Render;
    if ts != [] {
      var text := texts(ts[0]);
      if text.Some? { RenderFits(ts[0], text.value, printer, msgs); }
      RenderTargetsFit(ts[1..], texts, printer, msgs);
    }
  }

  /** Rendering any segment's squash targets, with any texts, fits the body. */
  lemma SegmentRenderingFits(body: Body, seg: Segment, texts: Target -> Option<string>, printer: Printer)
    ensures AllFit(RenderTargets(SquashTargets(body, seg), texts, printer), body.messages)
  {
    hide Offered, SquashTargets;
    forall k | 0 <= k < |SquashTargets(body, seg)| ensures Offered(SquashTargets(body, seg)[k], body.messages) {
      SquashTargetsOffered(body, seg, k);
    }
    RenderTargetsFit(SquashTargets(body, seg), texts, printer, body.messages);
  }
}
