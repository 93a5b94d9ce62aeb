/** Every field of a segment, from the messages it covers. */
module SegmentFields {
  import opened Basics
  import opened Wire
  import opened Segmentation

  // ---- what the fields mean ----

  /** A tool call under `id`. */
  predicate Calls(b: Block, id: string) {
    b.Object? && "type" in b.fields && b.fields["type"] == Str("tool_use") &&
    "id" in b.fields && b.fields["id"] == Str(id) &&
    ("tool_use_id" in b.fields ==> b.fields["tool_use_id"].Null? || b.fields["tool_use_id"].Str?) &&
    ("name" in b.fields ==> b.fields["name"].Null? || b.fields["name"].Str?)
  }

  /** A tool result for `id`. */
  predicate Answers(b: Block, id: string) {
    b.Object? && "type" in b.fields && b.fields["type"] == Str("tool_result") &&
    "tool_use_id" in b.fields && b.fields["tool_use_id"] == Str(id) &&
    ("id" in b.fields ==> b.fields["id"].Null? || b.fields["id"].Str?) &&
    ("name" in b.fields ==> b.fields["name"].Null? || b.fields["name"].Str?)
  }

  /** Message `i` makes a call that the user message right after it answers. */
  ghost predicate AnsweredNext(msgs: seq<Message>, i: nat) {
    i + 1 < |msgs| && msgs[i].role == Assistant && msgs[i + 1].role == User &&
    exists b, b', id ::
      b in BlocksOf(msgs[i].content) && b' in BlocksOf(msgs[i + 1].content) && Calls(b, id) && Answers(b', id)
  }

  ghost predicate AwaitsResult(c: Content) {
    exists b :: b in BlocksOf(c) && b.Object? && "type" in b.fields && b.fields["type"] == Str("tool_use")
  }

  /** What a message reads as: its decoded string, or its blocks as they stand on the wire. */
  function Reading(c: Content): string {
    match c
    case Text(_, text) => text
    case Blocks(bs) => AllRaw(bs)
  }

  function AllRaw(bs: seq<Block>): string { if bs == [] then "" else bs[0].raw + AllRaw(bs[1..]) }

  /** `tokens` is the number of characters over 3.5, rounded up. */
  predicate Estimates(tokens: nat, text: string) { 2 * |text| <= 7 * tokens < 2 * |text| + 7 }

  /** The bytes a message takes on the wire, separators aside. */
  function WireBytes(msgs: seq<Message>): nat {
    if msgs == [] then 0 else ContentBytes(msgs[0].content) + WireBytes(msgs[1..])
  }

  function ContentBytes(c: Content): nat {
    match c
    case Text(raw, _) => ByteLen(raw)
    case Blocks(bs) => ByteLen(AllRaw(bs))
  }

  // ---- pairs ----

  lemma {:induction false} UseIdsMembers(bs: seq<Block>, id: string)
    ensures id in UseIds(bs) <==> exists b :: b in bs && Calls(b, id)
  {
    if bs != [] {
      UseIdsMembers(bs[1..], id);
      CallsIff(bs[0], id);
      hide Calls, Kind, ToolUseId;
      assert bs == [bs[0]] + bs[1..];
    }
  }

  lemma CallsIff(b: Block, id: string)
    ensures Calls(b, id) <==> Kind(b) == ToolUse && ToolUseId(b) == Some(id)
    ensures Answers(b, id) <==> Kind(b) == ToolResult && ToolUseId(b) == Some(id)
  {
  }

  lemma AnswersOneIff(ids: seq<string>, bs: seq<Block>)
    ensures AnswersOne(ids, bs) <==> exists b, id :: b in bs && id in ids && Answers(b, id)
  {
    hide Answers, Kind, ToolUseId;
    if AnswersOne(ids, bs) {
      var b :| b in bs && Kind(b) == ToolResult && ToolUseId(b).Some? && ToolUseId(b).value in ids;
      CallsIff(b, ToolUseId(b).value);
    }
    if b, id :| b in bs && id in ids && Answers(b, id) { CallsIff(b, id); }
  }

  lemma PairedIff(msgs: seq<Message>, i: nat)
    requires i < |msgs| && msgs[i].role == Assistant
    ensures Paired(msgs, i) <==> AnsweredNext(msgs, i)
  {
    hide UseIds, AnswersOne, Calls, Answers;
    var bs := BlocksOf(msgs[i].content);
    var ids := UseIds(bs);
    forall id ensures id in ids <==> exists b :: b in bs && Calls(b, id) { UseIdsMembers(bs, id); }
    if i + 1 < |msgs| { AnswersOneIff(ids, BlocksOf(msgs[i + 1].content)); }
  }

  // ---- readings and bytes ----

  lemma {:induction false} RawsAreRead(bs: seq<Block>)
    ensures Concat(Raws(Blocks(bs))) == AllRaw(bs)
  {
    if bs != [] {
      RawsAreRead(bs[1..]);
      assert Raws(Blocks(bs))[1..] == Raws(Blocks(bs[1..]));
    }
  }

  lemma RenderedIsReading(c: Content)
    ensures Rendered(c) == Reading(c)
    ensures SumLen(Raws(c)) == ContentBytes(c)
  {
    ConcatLen(Raws(c));
    match c {
      case Text(raw, _) => assert [raw][1..] == []; assert Concat([raw]) == raw + ""; assert raw + "" == raw;
      case Blocks(bs) => RawsAreRead(bs);
    }
  }

  lemma {:induction false} WireBytesConcat(a: seq<Message>, b: seq<Message>)
    ensures WireBytes(a + b) == WireBytes(a) + WireBytes(b)
  {
    if a == [] {
      assert a + b == b;
    } else {
      assert (a + b)[1..] == a[1..] + b;
      WireBytesConcat(a[1..], b);
    }
  }

  // ---- a message's segment ----

  /** The segment is what the messages say, when the messages' bytes begin at `start`. */
  ghost predicate Describes(s: Segment, msgs: seq<Message>, start: nat) {
    s.sources != [] && s.sources[0] < |msgs| &&
    var i := s.sources[0];
    var pair := AnsweredNext(msgs, i);
    s.sources == (if pair then [i, i + 1] else [i]) &&
    s.kind == (match msgs[i].role
               case Assistant => if pair then ToolPair else AssistantTurn
               case User => UserTurn
               case System => SystemKind) &&
    (s.isTrueHuman <==> msgs[i].role == User && msgs[i].content.Text?) &&
    Estimates(s.tokens, Reading(msgs[i].content) + if pair then Reading(msgs[i + 1].content) else "") &&
    s.byteOffset == start + WireBytes(msgs[..i])
  }

  lemma EstimateIsCeiling(s: string)
    ensures Estimates(EstimateTokens(s), s)
  {
  }

  lemma PlacedDescribes(msgs: seq<Message>, i: nat, g: nat, index: nat, start: nat)
    requires i < |msgs|
    ensures var b := BuildAt(msgs, i, g);
            Describes(Place(b, index, start + WireBytes(msgs[..i])), msgs, start) && b.sources[0] == i &&
            WireBytes(msgs[..i]) + SumLen(b.raws) == WireBytes(msgs[..i + |b.sources|])
  {
    hide Paired, AnsweredNext, Reading, Rendered, Raws, SumLen, EstimateTokens, Estimates, WireBytes, HasClientToolUse,
        ContentBytes;
    var b, m := BuildAt(msgs, i, g), msgs[i].content;
    if msgs[i].role == Assistant { PairedIff(msgs, i); } else { OnlyAssistantsAreAnswered(msgs, i); }
    RenderedIsReading(m);
    WireBytesStep(msgs, i);
    EstimateIsCeiling(b.rendered);
    if msgs[i].role == Assistant && Paired(msgs, i) {
      PairedHasNext(msgs, i);
      RenderedIsReading(msgs[i + 1].content);
      WireBytesStep(msgs, i + 1);
      SumLenConcat(Raws(m), Raws(msgs[i + 1].content));
    } else {
      assert Reading(m) + "" == Reading(m);
    }
  }

  lemma OnlyAssistantsAreAnswered(msgs: seq<Message>, i: nat)
    requires i < |msgs| && msgs[i].role != Assistant
    ensures !AnsweredNext(msgs, i)
  {
  }

  lemma PairedHasNext(msgs: seq<Message>, i: nat)
    requires i < |msgs| && Paired(msgs, i)
    ensures i + 1 < |msgs|
  {
  }

  lemma WireBytesStep(msgs: seq<Message>, i: nat)
    requires i < |msgs|
    ensures WireBytes(msgs[..i + 1]) == WireBytes(msgs[..i]) + ContentBytes(msgs[i].content)
  {
    assert msgs[..i + 1] == msgs[..i] + [msgs[i]];
    WireBytesConcat(msgs[..i], [msgs[i]]);
    assert [msgs[i]][1..] == [];
  }

  lemma {:induction false} MessageSegmentsDescribe(
    msgs: seq<Message>, i: nat, g: nat, index: nat, start: nat, k: nat)
    requires i <= |msgs| && k < |MessageSegments(msgs, i, g, index, start + WireBytes(msgs[..i]))|
    ensures Describes(MessageSegments(msgs, i, g, index, start + WireBytes(msgs[..i]))[k], msgs, start)
    decreases |msgs| - i
  {
    hide BuildAt, SumLen, Describes, WireBytes;
    var b := BuildAt(msgs, i, g);
    PlacedDescribes(msgs, i, g, index, start);
    if k > 0 { MessageSegmentsDescribe(msgs, i + |b.sources|, b.generation, index + 1, start, k - 1); }
  }

  /** Bytes of the tools and of the system prompt. */
  function HeadBytes(body: Body): nat {
    (match body.tools case Some(raw) => ByteLen(raw) case None => 0) +
    (match body.system case Some(raw) => ByteLen(raw) case None => 0)
  }

  /** How many segments come before the messages. */
  function HeadSegments(body: Body): nat {
    (if body.tools.Some? then 1 else 0) + (if body.system.Some? then 1 else 0)
  }

  /** A segment of messages covers one message, or an assistant message with the user message that answers
      one of its calls; its kind is the first message's role; its tokens estimate what exactly those
      messages read as; its offset counts the bytes of everything before it. */
  lemma SegmentIsItsMessages(body: Body, k: nat)
    requires HeadSegments(body) <= k < |Segments(body)|
    ensures Describes(Segments(body)[k], body.messages, HeadBytes(body))
  {
    hide MessageSegments, AnsweredNext, Estimates, Reading;
    PreambleIsHead(body);
    assert body.messages[..0] == [];
    MessageSegmentsDescribe(body.messages, 0, 0, HeadSegments(body), HeadBytes(body), k - HeadSegments(body));
  }

  lemma OneLength(s: string)
    ensures SumLen([s]) == ByteLen(s)
  {
    assert [s][1..] == [];
    assert SumLen([]) == 0;
  }

  lemma PreambleIsHead(body: Body)
    ensures |Preamble(body)| == HeadSegments(body) && PreambleBytes(body) == HeadBytes(body)
  {
    hide ByteLen;
    if body.tools.Some? { OneLength(body.tools.value); }
    if body.system.Some? { OneLength(body.system.value); }
  }

  /** The tools come first, then the system prompt, each as one segment of no message and no generation. */
  lemma HeadSegmentsAre(body: Body)
    ensures var segs := Segments(body);
            |segs| >= HeadSegments(body) &&
            (body.tools.Some? ==> HeadIs(segs, 0, ToolsKind, body.tools.value, 0)) &&
            (body.system.Some? ==>
               HeadIs(segs, HeadSegments(body) - 1, SystemKind, body.system.value,
                      if body.tools.Some? then ByteLen(body.tools.value) else 0))
  {
    hide MessageSegments, ByteLen, Estimates, EstimateTokens;
    PreambleIsHead(body);
    if body.tools.Some? { EstimateIsCeiling(body.tools.value); OneLength(body.tools.value); }
    if body.system.Some? { EstimateIsCeiling(body.system.value); OneLength(body.system.value); }
  }

  predicate HeadIs(segs: seq<Segment>, k: int, kind: SegmentKind, text: string, offset: nat) {
    0 <= k < |segs| && segs[k].index == k && segs[k].kind == kind && segs[k].sources == [] &&
    segs[k].byteOffset == offset && Estimates(segs[k].tokens, text) && segs[k].generation == 0 &&
    !segs[k].isTrueHuman && (segs[k].pinned <==> k == |segs| - 1) && (segs[k].isCurrent <==> k == |segs| - 1)
  }

  /** A message segment is pinned when it is the last, or an assistant turn whose call no next message answers. */
  lemma PinnedIff(body: Body, k: nat)
    requires HeadSegments(body) <= k < |Segments(body)|
    ensures var segs, msgs := Segments(body), body.messages;
            segs[k].sources != [] && segs[k].sources[0] < |msgs| &&
            var m := msgs[segs[k].sources[0]];
            (segs[k].isCurrent <==> k == |segs| - 1) &&
            (segs[k].pinned <==>
             k == |segs| - 1 ||
             (m.role == Assistant && !AnsweredNext(msgs, segs[k].sources[0]) && AwaitsResult(m.content)))
  {
    hide Segments, AnsweredNext, Estimates, Reading, WireBytes, HasClientToolUse, AwaitsResult;
    PreambleIsHead(body);
    SegmentMarks(body, k);
    SegmentIsItsMessages(body, k);
    AwaitsIff(body.messages[Segments(body)[k].sources[0]].content);
  }

  lemma AwaitsIff(c: Content)
    ensures HasClientToolUse(c) <==> AwaitsResult(c)
  {
  }

  /** A call answered by the next message is a tool pair, and no other two messages share a segment. */
  lemma PairIff(body: Body, i: nat)
    ensures AnsweredNext(body.messages, i) <==>
            exists k :: 0 <= k < |Segments(body)| && Segments(body)[k].kind == ToolPair &&
                        Segments(body)[k].sources == [i, i + 1]
  {
    hide Segments, AnsweredNext, Paired, Describes;
    var segs, msgs := Segments(body), body.messages;
    if AnsweredNext(msgs, i) {
      assert i < |msgs| && msgs[i].role == Assistant by { AnsweredStart(msgs, i); }
      PairedIff(msgs, i);
      var k := PairsShareASegment(body, i);
    }
    if k :| 0 <= k < |segs| && segs[k].kind == ToolPair && segs[k].sources == [i, i + 1] {
      assert k >= HeadSegments(body) by { PreambleIsHead(body); SegmentShape(body, k); }
      SegmentIsItsMessages(body, k);
      DescribedPair(segs[k], msgs, HeadBytes(body));
    }
  }

  lemma AnsweredStart(msgs: seq<Message>, i: nat)
    requires AnsweredNext(msgs, i)
    ensures i < |msgs| && msgs[i].role == Assistant
  {
  }

  lemma DescribedPair(s: Segment, msgs: seq<Message>, start: nat)
    requires Describes(s, msgs, start) && |s.sources| == 2
    ensures AnsweredNext(msgs, s.sources[0])
  {
    hide AnsweredNext, Estimates, WireBytes;
  }

  /** A pair is estimated at no less than each of its messages and no more than the two together. */
  lemma PairCostsBoth(body: Body, k: nat)
    requires HeadSegments(body) <= k < |Segments(body)| && |Segments(body)[k].sources| == 2
    ensures var s, msgs := Segments(body)[k], body.messages;
            s.sources[0] < |msgs| && s.sources[1] < |msgs| &&
            var a, b := EstimateTokens(Reading(msgs[s.sources[0]].content)),
                        EstimateTokens(Reading(msgs[s.sources[1]].content));
            a <= s.tokens <= a + b && b <= s.tokens
  {
    hide Segments, AnsweredNext, Reading, WireBytes;
    SegmentIsItsMessages(body, k);
    DescribedPair(Segments(body)[k], body.messages, HeadBytes(body));
    assert Segments(body)[k].sources[0] + 1 < |body.messages| by {
      PairHasSecond(body.messages, Segments(body)[k].sources[0]);
    }
  }

  lemma PairHasSecond(msgs: seq<Message>, i: nat)
    requires AnsweredNext(msgs, i)
    ensures i + 1 < |msgs|
  {
  }
}
