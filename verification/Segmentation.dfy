/** Cutting a request body into segments. */
module Segmentation {
  import opened Basics
  import opened Wire

  datatype SegmentKind = ToolsKind | SystemKind | UserTurn | AssistantTurn | ToolPair

  /** `sources` are the message indices the segment covers. */
  datatype Segment = Segment(
    index: nat, kind: SegmentKind, byteOffset: nat, tokens: nat, generation: nat,
    pinned: bool, isCurrent: bool, isTrueHuman: bool, sources: seq<nat>)

  predicate HasClientToolUse(c: Content) { exists b :: b in BlocksOf(c) && Kind(b) == ToolUse }

  /** The client tool calls of a message that carry an id. */
  function UseIds(bs: seq<Block>): seq<string> {
    if bs == [] then []
    else (if Kind(bs[0]) == ToolUse && ToolUseId(bs[0]).Some? then [ToolUseId(bs[0]).value] else []) + UseIds(bs[1..])
  }

  predicate AnswersOne(ids: seq<string>, bs: seq<Block>) {
    exists b :: b in bs && Kind(b) == ToolResult && ToolUseId(b).Some? && ToolUseId(b).value in ids
  }

  /** Whether the message after `i` is a user turn answering one of the tool calls made at `i`. */
  predicate Paired(msgs: seq<Message>, i: nat)
    requires i < |msgs|
  {
    var ids := UseIds(BlocksOf(msgs[i].content));
    ids != [] && i + 1 < |msgs| && msgs[i + 1].role == User && AnswersOne(ids, BlocksOf(msgs[i + 1].content))
  }

  /** One segment before it is given its index, with the bytes it spans. */
  datatype Build = Build(
    kind: SegmentKind, generation: nat, pinned: bool, isTrueHuman: bool, sources: seq<nat>,
    raws: seq<string>, rendered: string)

  function Place(b: Build, index: nat, offset: nat): Segment {
    Segment(index, b.kind, offset, EstimateTokens(b.rendered), b.generation, b.pinned, false, b.isTrueHuman, b.sources)
  }

  /** What the loop builds at message `i`, under generation `g`. */
  function BuildAt(msgs: seq<Message>, i: nat, g: nat): (b: Build)
    requires i < |msgs|
    ensures 1 <= |b.sources| <= |msgs| - i
    ensures b.sources[0] == i
  {
    var m := msgs[i].content;
    match msgs[i].role
    case Assistant =>
      if Paired(msgs, i) then
        var r := msgs[i + 1].content;
        Build(ToolPair, g, false, false, [i, i + 1], Raws(m) + Raws(r), Rendered(m) + Rendered(r))
      else
        Build(AssistantTurn, g, HasClientToolUse(m), false, [i], Raws(m), Rendered(m))
    case User => Build(UserTurn, g + 1, false, m.Text?, [i], Raws(m), Rendered(m))
    case System => Build(SystemKind, g, false, false, [i], Raws(m), Rendered(m))
  }

  function WholeBuild(kind: SegmentKind, raw: string): Build {
    Build(kind, 0, false, false, [], [raw], raw)
  }

  /** The segments of messages `i..`, numbered from `index`. */
  function MessageSegments(msgs: seq<Message>, i: nat, g: nat, index: nat, offset: nat): (segs: seq<Segment>)
    requires i <= |msgs|
    decreases |msgs| - i
  {
    if i == |msgs| then []
    else
      var b := BuildAt(msgs, i, g);
      [Place(b, index, offset)] +
          MessageSegments(msgs, i + |b.sources|, b.generation, index + 1, offset + SumLen(b.raws))
  }

  function Preamble(body: Body): seq<Segment> {
    var tools := if body.tools.Some? then [Place(WholeBuild(ToolsKind, body.tools.value), 0, 0)] else [];
    var offset := if body.tools.Some? then SumLen([body.tools.value]) else 0;
    tools + if body.system.Some? then [Place(WholeBuild(SystemKind, body.system.value), |tools|, offset)] else []
  }

  function PreambleBytes(body: Body): nat {
    (if body.tools.Some? then SumLen([body.tools.value]) else 0) +
    (if body.system.Some? then SumLen([body.system.value]) else 0)
  }

  function MarkLast(segs: seq<Segment>): seq<Segment> {
    if segs == [] then [] else segs[|segs| - 1 := segs[|segs| - 1].(pinned := true, isCurrent := true)]
  }

  function Unmarked(body: Body): seq<Segment> {
    Preamble(body) + MessageSegments(body.messages, 0, 0, |Preamble(body)|, PreambleBytes(body))
  }

  function Segments(body: Body): seq<Segment> { MarkLast(Unmarked(body)) }

  /** The canonical bytes a segment is content-addressed by. */
  function Payload(seg: Segment, body: Body): string { PayloadOf(seg.sources, body.messages) }

  function PayloadOf(sources: seq<nat>, msgs: seq<Message>): string {
    if sources == [] then ""
    else (if sources[0] < |msgs| then Concat(Raws(msgs[sources[0]].content)) else "") + PayloadOf(sources[1..], msgs)
  }

  // ---- the loop of the source ----

  method BuildMessage(msgs: seq<Message>, i: nat, generation: nat) returns (build: Build)
    requires i < |msgs|
    ensures build == BuildAt(msgs, i, generation)
  {
    hide UseIds, AnswersOne;
    var m := msgs[i].content;
    match msgs[i].role {
      case Assistant =>
        if Paired(msgs, i) {
          var r := msgs[i + 1].content;
          build := Build(ToolPair, generation, false, false, [i, i + 1], Raws(m) + Raws(r), Rendered(m) + Rendered(r));
        } else {
          build := Build(AssistantTurn, generation, HasClientToolUse(m), false, [i], Raws(m), Rendered(m));
        }
      case User =>
        build := Build(UserTurn, generation + 1, false, m.Text?, [i], Raws(m), Rendered(m));
      case System =>
        build := Build(SystemKind, generation, false, false, [i], Raws(m), Rendered(m));
    }
  }

  method SegmentPrompt(body: Body) returns (segments: seq<Segment>)
    ensures segments == Segments(body)
  {
    hide BuildAt, SumLen;
    segments := [];
    var offset: nat, generation: nat := 0, 0;
    if body.tools.Some? {
      segments := segments + [Place(WholeBuild(ToolsKind, body.tools.value), |segments|, offset)];
      offset := offset + SumLen([body.tools.value]);
    }
    if body.system.Some? {
      segments := segments + [Place(WholeBuild(SystemKind, body.system.value), |segments|, offset)];
      offset := offset + SumLen([body.system.value]);
    }
    assert segments == Preamble(body) && offset == PreambleBytes(body);
    hide MessageSegments, Preamble, PreambleBytes;
    var msgs := body.messages;
    ghost var all := Unmarked(body);
    hide Unmarked;
    var i := 0;
    while i < |msgs|
      invariant i <= |msgs|
      invariant segments + MessageSegments(msgs, i, generation, |segments|, offset) == all
    {
      var build := BuildMessage(msgs, i, generation);
      NextSegment(msgs, i, generation, segments, offset);
      segments := segments + [Place(build, |segments|, offset)];
      offset := offset + SumLen(build.raws);
      generation := build.generation;
      i := i + |build.sources|;
    }
    NextSegment(msgs, i, generation, segments, offset);
    if segments != [] {
      var last := |segments| - 1;
      segments := segments[last := segments[last].(pinned := true, isCurrent := true)];
    }
  }

  lemma NextSegment(msgs: seq<Message>, i: nat, g: nat, done: seq<Segment>, offset: nat)
    requires i <= |msgs|
    ensures done + MessageSegments(msgs, i, g, |done|, offset) ==
            if i == |msgs| then done
            else
              var b := BuildAt(msgs, i, g);
              var grown := done + [Place(b, |done|, offset)];
              grown + MessageSegments(msgs, i + |b.sources|, b.generation, |grown|, offset + SumLen(b.raws))
  {
    hide BuildAt, SumLen, Place;
  }

  // ---- the segments partition the messages ----

  /** The message indices covered, in segment order. */
  function Covered(segs: seq<Segment>): seq<nat> {
    if segs == [] then [] else segs[0].sources + Covered(segs[1..])
  }

  function Range(lo: nat, hi: nat): (r: seq<nat>)
    ensures |r| == (if lo <= hi then hi - lo else 0) && forall k :: 0 <= k < |r| ==> r[k] == lo + k
  {
    if lo <= hi then seq(hi - lo, k requires 0 <= k => lo + k) else []
  }

  lemma RangeSplit(lo: nat, mid: nat, hi: nat)
    requires lo <= mid <= hi
    ensures Range(lo, hi) == Range(lo, mid) + Range(mid, hi)
  {
  }

  lemma CoveredCons(s: Segment, segs: seq<Segment>)
    ensures Covered([s] + segs) == s.sources + Covered(segs)
  {
    assert ([s] + segs)[1..] == segs;
  }

  lemma BuildSources(msgs: seq<Message>, i: nat, g: nat)
    requires i < |msgs|
    ensures var b := BuildAt(msgs, i, g);
            b.sources == Range(i, i + |b.sources|) &&
            b.sources == (if msgs[i].role == Assistant && Paired(msgs, i) then [i, i + 1] else [i]) &&
            (b.kind == ToolPair <==> |b.sources| == 2)
  {
    hide UseIds, AnswersOne, HasClientToolUse;
  }

  lemma {:induction false} MessageSegmentsCover(msgs: seq<Message>, i: nat, g: nat, index: nat, offset: nat)
    requires i <= |msgs|
    ensures Covered(MessageSegments(msgs, i, g, index, offset)) == Range(i, |msgs|)
    decreases |msgs| - i
  {
    hide Paired, BuildAt, SumLen;
    if i < |msgs| {
      var b := BuildAt(msgs, i, g);
      var next := i + |b.sources|;
      MessageSegmentsCover(msgs, next, b.generation, index + 1, offset + SumLen(b.raws));
      CoveredCons(Place(b, index, offset),
          MessageSegments(msgs, next, b.generation, index + 1, offset + SumLen(b.raws)));
      BuildSources(msgs, i, g);
      RangeSplit(i, next, |msgs|);
    }
  }

  lemma {:induction false} CoveredConcat(a: seq<Segment>, b: seq<Segment>)
    ensures Covered(a + b) == Covered(a) + Covered(b)
  {
    if a == [] {
      assert a + b == b;
    } else {
      assert (a + b)[1..] == a[1..] + b;
      CoveredConcat(a[1..], b);
    }
  }

  lemma {:induction false} CoveredDependsOnSources(a: seq<Segment>, b: seq<Segment>)
    requires |a| == |b| && forall k :: 0 <= k < |a| ==> a[k].sources == b[k].sources
    ensures Covered(a) == Covered(b)
  {
    if a != [] {
      CoveredDependsOnSources(a[1..], b[1..]);
    }
  }

  lemma PreambleCoversNothing(body: Body)
    ensures Covered(Preamble(body)) == []
  {
    var p := Preamble(body);
    if p != [] {
      assert p[0].sources == [] && (|p| > 1 ==> p[1..][0].sources == [] && p[1..][1..] == []);
      assert Covered(p[1..]) == [];
    }
  }

  /** The segments cover every message exactly once, in order. */
  lemma SegmentsPartitionMessages(body: Body)
    ensures Covered(Segments(body)) == Range(0, |body.messages|)
  {
    hide Covered, MessageSegments, Preamble, PreambleBytes, Range;
    PreambleCoversNothing(body);
    MessageSegmentsCover(body.messages, 0, 0, |Preamble(body)|, PreambleBytes(body));
    CoveredConcat(Preamble(body), MessageSegments(body.messages, 0, 0, |Preamble(body)|, PreambleBytes(body)));
    CoveredDependsOnSources(Unmarked(body), Segments(body));
  }

  lemma {:induction false} SourceIsCovered(segs: seq<Segment>, a: nat, m: nat)
    requires a < |segs| && m in segs[a].sources
    ensures m in Covered(segs)
  {
    if a > 0 { SourceIsCovered(segs[1..], a - 1, m); }
  }

  lemma {:induction false} DisjointWhenCoveredOnce(segs: seq<Segment>, lo: nat, hi: nat, a: nat, b: nat, m: nat)
    requires Covered(segs) == Range(lo, hi)
    requires a < b < |segs| && m in segs[a].sources
    ensures m !in segs[b].sources
  {
    var n := |segs[0].sources|;
    var c := Covered(segs);
    assert c[n..] == Covered(segs[1..]) && c[..n] == segs[0].sources;
    assert Covered(segs[1..]) == Range(lo + n, hi);
    if a == 0 {
      if m in segs[b].sources { SourceIsCovered(segs[1..], b - 1, m); }
    } else {
      DisjointWhenCoveredOnce(segs[1..], lo + n, hi, a - 1, b - 1, m);
    }
  }

  /** No message belongs to two segments. */
  lemma SegmentsAreDisjoint(body: Body, a: nat, b: nat, m: nat)
    requires a < |Segments(body)| && b < |Segments(body)| && a != b
    requires m in Segments(body)[a].sources
    ensures m !in Segments(body)[b].sources
  {
    SegmentsPartitionMessages(body);
    var segs := Segments(body);
    if a < b {
      DisjointWhenCoveredOnce(segs, 0, |body.messages|, a, b, m);
    } else if m in segs[b].sources {
      DisjointWhenCoveredOnce(segs, 0, |body.messages|, b, a, m);
    }
  }

  /** One message, or an assistant message with the user message that answers it. */
  predicate SoundSegment(s: Segment, msgs: seq<Message>) {
    s.sources != [] && s.sources[0] < |msgs| &&
    s.sources == (if msgs[s.sources[0]].role == Assistant && Paired(msgs, s.sources[0])
                  then [s.sources[0], s.sources[0] + 1] else [s.sources[0]]) &&
    (s.kind == ToolPair <==> |s.sources| == 2)
  }

  lemma {:induction false} MessageSegmentsShape(msgs: seq<Message>, i: nat, g: nat, index: nat, offset: nat, k: nat)
    requires i <= |msgs| && k < |MessageSegments(msgs, i, g, index, offset)|
    ensures MessageSegments(msgs, i, g, index, offset)[k].index == index + k
    ensures SoundSegment(MessageSegments(msgs, i, g, index, offset)[k], msgs)
    decreases |msgs| - i
  {
    hide BuildAt, SumLen, Paired;
    var b := BuildAt(msgs, i, g);
    if k > 0 {
      hide SoundSegment;
      MessageSegmentsShape(msgs, i + |b.sources|, b.generation, index + 1, offset + SumLen(b.raws), k - 1);
    } else {
      BuildSources(msgs, i, g);
    }
  }

  /** A segment's position is its index, and past the preamble it is a sound segment. */
  lemma SegmentShape(body: Body, k: nat)
    requires k < |Segments(body)|
    ensures Segments(body)[k].index == k
    ensures k < |Preamble(body)| ==> Segments(body)[k].sources == [] && Segments(body)[k].kind != ToolPair
    ensures k >= |Preamble(body)| ==> SoundSegment(Segments(body)[k], body.messages)
  {
    hide MessageSegments, Paired;
    var p := |Preamble(body)|;
    if k >= p {
      MessageSegmentsShape(body.messages, 0, 0, p, PreambleBytes(body), k - p);
    }
  }

  // ---- offsets, generations and pins ----

  lemma {:induction false} ConcatLen(ss: seq<string>)
    ensures ByteLen(Concat(ss)) == SumLen(ss)
  {
    if ss != [] {
      ConcatLen(ss[1..]);
      ByteLenConcat(ss[0], Concat(ss[1..]));
    }
  }

  lemma {:induction false} SumLenConcat(a: seq<string>, b: seq<string>)
    ensures SumLen(a + b) == SumLen(a) + SumLen(b)
  {
    if a == [] {
      assert a + b == b;
    } else {
      assert (a + b)[1..] == a[1..] + b;
      SumLenConcat(a[1..], b);
    }
  }

  lemma PayloadOfOne(msgs: seq<Message>, i: nat)
    requires i < |msgs|
    ensures PayloadOf([i], msgs) == Concat(Raws(msgs[i].content))
  {
    hide Concat, Raws;
    assert PayloadOf([i][1..], msgs) == "";
  }

  lemma PayloadOfTwo(msgs: seq<Message>, i: nat)
    requires i + 1 < |msgs|
    ensures PayloadOf([i, i + 1], msgs) == Concat(Raws(msgs[i].content)) + Concat(Raws(msgs[i + 1].content))
  {
    hide Concat, Raws;
    assert [i, i + 1][1..] == [i + 1];
    PayloadOfOne(msgs, i + 1);
  }

  lemma BuildRaws(msgs: seq<Message>, i: nat, g: nat)
    requires i < |msgs|
    ensures var b := BuildAt(msgs, i, g);
            (b.sources == [i] && b.raws == Raws(msgs[i].content)) ||
            (i + 1 < |msgs| && b.sources == [i, i + 1] && b.raws == Raws(msgs[i].content) + Raws(msgs[i + 1].content))
  {
    hide Raws, Rendered, UseIds, AnswersOne, HasClientToolUse;
  }

  lemma PayloadLen(msgs: seq<Message>, i: nat, g: nat)
    requires i < |msgs|
    ensures ByteLen(PayloadOf(BuildAt(msgs, i, g).sources, msgs)) == SumLen(BuildAt(msgs, i, g).raws)
  {
    hide BuildAt, PayloadOf, Concat, SumLen, Raws, ByteLen;
    BuildRaws(msgs, i, g);
    PayloadOfOne(msgs, i);
    ConcatLen(Raws(msgs[i].content));
    if i + 1 < |msgs| {
      var first, second := Raws(msgs[i].content), Raws(msgs[i + 1].content);
      PayloadOfTwo(msgs, i);
      ConcatLen(second);
      SumLenConcat(first, second);
      ByteLenConcat(Concat(first), Concat(second));
    }
  }

  lemma {:induction false} MessageSegmentsAbut(msgs: seq<Message>, i: nat, g: nat, index: nat, offset: nat, k: nat)
    requires i <= |msgs| && k + 1 < |MessageSegments(msgs, i, g, index, offset)|
    ensures var segs := MessageSegments(msgs, i, g, index, offset);
            segs[k + 1].byteOffset == segs[k].byteOffset + ByteLen(PayloadOf(segs[k].sources, msgs))
    decreases |msgs| - i
  {
    hide BuildAt, SumLen, PayloadOf, ByteLen;
    var b := BuildAt(msgs, i, g);
    var rest := MessageSegments(msgs, i + |b.sources|, b.generation, index + 1, offset + SumLen(b.raws));
    if k > 0 {
      MessageSegmentsAbut(msgs, i + |b.sources|, b.generation, index + 1, offset + SumLen(b.raws), k - 1);
    } else {
      PayloadLen(msgs, i, g);
      assert rest[0].byteOffset == offset + SumLen(b.raws);
    }
  }

  /** Past the preamble, a segment starts where the payload of the one before it ends. */
  lemma SegmentsAbut(body: Body, k: nat)
    requires |Preamble(body)| <= k && k + 1 < |Segments(body)|
    ensures Segments(body)[k + 1].byteOffset == Segments(body)[k].byteOffset + ByteLen(Payload(Segments(body)[k], body))
  {
    hide MessageSegments, PayloadOf, ByteLen;
    MessageSegmentsAbut(body.messages, 0, 0, |Preamble(body)|, PreambleBytes(body), k - |Preamble(body)|);
  }

  function UserTurns(segs: seq<Segment>): nat {
    if segs == [] then 0 else (if segs[0].kind == UserTurn then 1 else 0) + UserTurns(segs[1..])
  }

  lemma {:induction false} SameKindsSameTurns(a: seq<Segment>, b: seq<Segment>)
    requires |a| == |b| && forall k :: 0 <= k < |a| ==> a[k].kind == b[k].kind
    ensures UserTurns(a) == UserTurns(b)
  {
    if a != [] { SameKindsSameTurns(a[1..], b[1..]); }
  }

  /** A segment that waits for tool results. */
  predicate Pending(s: Segment, msgs: seq<Message>) {
    s.kind == AssistantTurn && s.sources != [] && s.sources[0] < |msgs| && HasClientToolUse(msgs[s.sources[0]].content)
  }

  lemma BuildMarks(msgs: seq<Message>, i: nat, g: nat)
    requires i < |msgs|
    ensures var b := BuildAt(msgs, i, g);
            b.generation == g + (if b.kind == UserTurn then 1 else 0) &&
            (b.pinned <==> b.kind == AssistantTurn && HasClientToolUse(msgs[i].content)) &&
            (b.isTrueHuman <==> b.kind == UserTurn && msgs[i].content.Text?)
  {
    hide Paired, HasClientToolUse, Raws, Rendered;
  }

  lemma {:induction false} MessageSegmentsMarks(msgs: seq<Message>, i: nat, g: nat, index: nat, offset: nat, k: nat)
    requires i <= |msgs| && k < |MessageSegments(msgs, i, g, index, offset)|
    ensures var segs := MessageSegments(msgs, i, g, index, offset);
            segs[k].generation == g + UserTurns(segs[..k + 1]) && (segs[k].pinned <==> Pending(segs[k], msgs)) &&
                !segs[k].isCurrent
    decreases |msgs| - i
  {
    hide BuildAt, SumLen, HasClientToolUse;
    var b := BuildAt(msgs, i, g);
    BuildMarks(msgs, i, g);
    var segs := MessageSegments(msgs, i, g, index, offset);
    var rest := MessageSegments(msgs, i + |b.sources|, b.generation, index + 1, offset + SumLen(b.raws));
    assert segs[..k + 1][1..] == rest[..k];
    if k > 0 {
      MessageSegmentsMarks(msgs, i + |b.sources|, b.generation, index + 1, offset + SumLen(b.raws), k - 1);
    } else {
      assert rest[..0] == [];
    }
  }

  /** Past the preamble, a segment's generation counts the user turns up to it; pinned are the last
      segment, which alone is current, and the assistant turns that wait for a tool result. */
  lemma SegmentMarks(body: Body, k: nat)
    requires |Preamble(body)| <= k < |Segments(body)|
    ensures var segs := Segments(body);
            segs[k].generation == UserTurns(segs[|Preamble(body)|..k + 1]) &&
            (segs[k].isCurrent <==> k == |segs| - 1) &&
            (segs[k].pinned <==> k == |segs| - 1 || Pending(segs[k], body.messages))
  {
    hide MessageSegments, HasClientToolUse;
    var p, segs := |Preamble(body)|, Segments(body);
    var plain := MessageSegments(body.messages, 0, 0, p, PreambleBytes(body));
    MessageSegmentsMarks(body.messages, 0, 0, p, PreambleBytes(body), k - p);
    SameKindsSameTurns(segs[p..k + 1], plain[..k + 1 - p]);
  }

  lemma {:induction false} CoveredBySome(segs: seq<Segment>, m: nat) returns (k: nat)
    requires m in Covered(segs)
    ensures k < |segs| && m in segs[k].sources
  {
    if m in segs[0].sources {
      k := 0;
    } else {
      k := CoveredBySome(segs[1..], m);
      k := k + 1;
    }
  }

  lemma SegmentStartsAtCall(body: Body, i: nat, k: nat)
    requires k < |Segments(body)| && i < |body.messages|
    requires body.messages[i].role == Assistant && Paired(body.messages, i)
    requires i in Segments(body)[k].sources && SoundSegment(Segments(body)[k], body.messages)
    ensures Segments(body)[k].kind == ToolPair && Segments(body)[k].sources == [i, i + 1]
  {
    hide Segments, UseIds, AnswersOne;
  }

  /** A tool call and the next message answering it are never split apart. */
  lemma PairsShareASegment(body: Body, i: nat) returns (k: nat)
    requires i < |body.messages| && body.messages[i].role == Assistant && Paired(body.messages, i)
    ensures k < |Segments(body)| && Segments(body)[k].kind == ToolPair && Segments(body)[k].sources == [i, i + 1]
  {
    hide Segments, Paired, SoundSegment;
    SegmentsPartitionMessages(body);
    assert Range(0, |body.messages|)[i] == i;
    k := CoveredBySome(Segments(body), i);
    SegmentShape(body, k);
    SegmentStartsAtCall(body, i, k);
  }

  // ---- the segments are stable when the transcript grows ----

  ghost predicate Grows(old': Body, new': Body) {
    old'.system == new'.system && old'.tools == new'.tools && old'.messages <= new'.messages
  }

  lemma BuildAtIsStable(msgs: seq<Message>, more: seq<Message>, i: nat, g: nat)
    requires msgs <= more && i + 1 < |msgs|
    ensures BuildAt(msgs, i, g) == BuildAt(more, i, g)
  {
    assert msgs[i] == more[i] && msgs[i + 1] == more[i + 1];
  }

  lemma {:induction false} MessageSegmentsStable(
    msgs: seq<Message>, more: seq<Message>, i: nat, g: nat, index: nat, offset: nat, k: nat)
    requires i <= |msgs| && msgs <= more
    requires k + 1 < |MessageSegments(msgs, i, g, index, offset)|
    ensures k + 1 < |MessageSegments(more, i, g, index, offset)|
    ensures MessageSegments(more, i, g, index, offset)[k] == MessageSegments(msgs, i, g, index, offset)[k]
    decreases |msgs| - i
  {
    hide BuildAt, SumLen;
    var b := BuildAt(msgs, i, g);
    var i', g', o' := i + |b.sources|, b.generation, offset + SumLen(b.raws);
    assert i' < |msgs|;
    BuildAtIsStable(msgs, more, i, g);
    if k > 0 {
      MessageSegmentsStable(msgs, more, i', g', index + 1, o', k - 1);
    } else {
      assert |MessageSegments(more, i', g', index + 1, o')| >= 1;
    }
  }

  lemma PayloadIsStable(sources: seq<nat>, msgs: seq<Message>, more: seq<Message>)
    requires msgs <= more && forall k :: 0 <= k < |sources| ==> sources[k] < |msgs|
    ensures PayloadOf(sources, msgs) == PayloadOf(sources, more)
  {
    if sources != [] {
      assert msgs[sources[0]] == more[sources[0]];
      PayloadIsStable(sources[1..], msgs, more);
    }
  }

  /** Every segment but the last survives appended messages: same record, same payload. */
  lemma SegmentsAreStable(old': Body, new': Body, k: nat)
    requires Grows(old', new') && k + 1 < |Segments(old')|
    ensures k + 1 < |Segments(new')|
    ensures Segments(new')[k] == Segments(old')[k]
    ensures Payload(Segments(new')[k], new') == Payload(Segments(old')[k], old')
  {
    hide MessageSegments, Paired, SoundSegment, Preamble;
    UnmarkedAreStable(old', new', k);
    SegmentShape(old', k);
    SourcesInRange(old', k);
    hide Segments, Unmarked;
    PayloadIsStable(Segments(old')[k].sources, old'.messages, new'.messages);
  }

  lemma UnmarkedAreStable(old': Body, new': Body, k: nat)
    requires Grows(old', new') && k + 1 < |Unmarked(old')|
    ensures k + 1 < |Unmarked(new')| && Unmarked(new')[k] == Unmarked(old')[k]
  {
    hide MessageSegments, Paired, SoundSegment;
    var p := |Preamble(old')|;
    assert Preamble(old') == Preamble(new');
    if k >= p {
      MessageSegmentsStable(old'.messages, new'.messages, 0, 0, p, PreambleBytes(old'), k - p);
    } else if k + 1 == p {
      SomeMessageSegments(old', new', p);
    }
  }

  lemma SomeMessageSegments(old': Body, new': Body, p: nat)
    requires Grows(old', new') && |MessageSegments(old'.messages, 0, 0, p, PreambleBytes(old'))| > 0
    ensures |MessageSegments(new'.messages, 0, 0, p, PreambleBytes(new'))| > 0
  {
  }

  /** Every message a segment names exists. */
  lemma SourcesInRange(body: Body, k: nat)
    requires k < |Segments(body)|
    ensures forall j :: 0 <= j < |Segments(body)[k].sources| ==> Segments(body)[k].sources[j] < |body.messages|
  {
    hide MessageSegments, UseIds, AnswersOne;
    SegmentShape(body, k);
  }

  lemma OneSegment(body: Body)
    requires body.tools.None? && body.system.None? && body.messages != [] && body.messages[0].role == Assistant
    requires |body.messages| == if Paired(body.messages, 0) then 2 else 1
    ensures |Segments(body)| == 1
    ensures Segments(body)[0].kind == if Paired(body.messages, 0) then ToolPair else AssistantTurn
  {
    hide Paired, SumLen, Raws, Rendered, EstimateTokens, HasClientToolUse;
    var b := BuildAt(body.messages, 0, 0);
    assert MessageSegments(body.messages, |body.messages|, b.generation, 1, SumLen(b.raws)) == [];
  }

  // ---- the last segment ----

  /** Everything but the two marks. */
  predicate SameBut(a: Segment, b: Segment) { a.(pinned := b.pinned, isCurrent := b.isCurrent) == b }

  /** The messages end in an assistant message that the first appended one answers. */
  predicate Answered(msgs: seq<Message>, more: seq<Message>)
    requires |msgs| <= |more|
  {
    msgs != [] && more[|msgs| - 1].role == Assistant && Paired(more, |msgs| - 1)
  }

  predicate AnsweredLater(old': Body, new': Body)
    requires |old'.messages| <= |new'.messages|
  {
    Answered(old'.messages, new'.messages)
  }

  /** An answered call becomes a tool pair with its answer; any other segment stays as it is. */
  predicate Carries(seg: Segment, seg': Segment, n: nat, answered: bool) {
    if answered then
      n > 0 && seg.kind == AssistantTurn && seg.sources == [n - 1] && seg'.kind == ToolPair &&
          seg'.sources == [n - 1, n]
    else seg' == seg
  }

  lemma LastBuild(msgs: seq<Message>, more: seq<Message>, i: nat, g: nat, index: nat, offset: nat)
    requires msgs <= more && i < |msgs| && i + |BuildAt(msgs, i, g).sources| == |msgs|
    ensures Carries(Place(BuildAt(msgs, i, g), index, offset), Place(BuildAt(more, i, g), index, offset),
                    |msgs|, Answered(msgs, more))
  {
    hide UseIds, AnswersOne, Raws, Rendered, HasClientToolUse, EstimateTokens;
    assert more[i] == msgs[i];
    if i + 1 < |msgs| { assert more[i + 1] == msgs[i + 1]; }
  }

  lemma Unfold(msgs: seq<Message>, i: nat, g: nat, index: nat, offset: nat)
    requires i <= |msgs|
    ensures MessageSegments(msgs, i, g, index, offset) ==
            if i == |msgs| then []
            else
              var b := BuildAt(msgs, i, g);
              [Place(b, index, offset)] +
              MessageSegments(msgs, i + |b.sources|, b.generation, index + 1, offset + SumLen(b.raws))
  {
    hide BuildAt, SumLen, Place;
  }

  lemma {:induction false} LastMessageSegment(
    msgs: seq<Message>, more: seq<Message>, i: nat, g: nat, index: nat, offset: nat)
    requires msgs <= more && i < |msgs|
    ensures var segs, segs' := MessageSegments(msgs, i, g, index, offset), MessageSegments(more, i, g, index, offset);
            segs != [] && |segs| <= |segs'| &&
            Carries(segs[|segs| - 1], segs'[|segs| - 1], |msgs|, Answered(msgs, more))
    decreases |msgs| - i
  {
    hide BuildAt, SumLen, Place, Carries, Answered, MessageSegments;
    var b := BuildAt(msgs, i, g);
    var i', g', o' := i + |b.sources|, b.generation, offset + SumLen(b.raws);
    Unfold(msgs, i, g, index, offset);
    Unfold(more, i, g, index, offset);
    if i' == |msgs| {
      LastBuild(msgs, more, i, g, index, offset);
      Unfold(msgs, i', g', index + 1, o');
    } else {
      BuildAtIsStable(msgs, more, i, g);
      LastMessageSegment(msgs, more, i', g', index + 1, o');
    }
  }

  lemma NoMessages(old': Body, new': Body)
    requires Grows(old', new') && old'.messages == []
    ensures Unmarked(old') == Preamble(old') && Unmarked(old') <= Unmarked(new')
  {
  }

  /** Exactly when the last segment survives appended messages: same record up to its marks and same
      payload, unless it is an assistant turn answered by the first message appended, and then it
      becomes the tool pair of the two. */
  lemma LastSegmentKeptIff(old': Body, new': Body)
    requires Grows(old', new') && Segments(old') != []
    ensures var k := |Segments(old')| - 1;
            k < |Segments(new')| &&
            ((SameBut(Segments(old')[k], Segments(new')[k]) &&
              Payload(Segments(new')[k], new') == Payload(Segments(old')[k], old')) <==> !AnsweredLater(old', new')) &&
            (AnsweredLater(old', new') ==>
               Segments(old')[k].kind == AssistantTurn && Segments(new')[k].kind == ToolPair &&
               Segments(new')[k].sources == [|old'.messages| - 1, |old'.messages|])
  {
    hide Unmarked, Segments, Answered, PayloadOf;
    MarksOnly(old');
    MarksOnly(new');
    LastUnmarked(old', new');
    var k := |Segments(old')| - 1;
    SourcesInRange(old', k);
    if !Answered(old'.messages, new'.messages) {
      PayloadIsStable(Segments(old')[k].sources, old'.messages, new'.messages);
    }
  }

  lemma MarksOnly(body: Body)
    ensures |Segments(body)| == |Unmarked(body)|
    ensures forall k :: 0 <= k < |Segments(body)| ==> SameBut(Unmarked(body)[k], Segments(body)[k])
  {
    hide Unmarked;
  }

  lemma LastUnmarked(old': Body, new': Body)
    requires Grows(old', new') && Unmarked(old') != []
    ensures var k := |Unmarked(old')| - 1;
            k < |Unmarked(new')| &&
            Carries(Unmarked(old')[k], Unmarked(new')[k], |old'.messages|, AnsweredLater(old', new'))
  {
    hide MessageSegments, Preamble, PreambleBytes, Carries, Answered;
    SamePreamble(old', new');
    if old'.messages == [] {
      NoMessages(old', new');
      NothingAnswered(old', new', Unmarked(old')[|Unmarked(old')| - 1]);
    } else {
      LastMessageSegment(old'.messages, new'.messages, 0, 0, |Preamble(old')|, PreambleBytes(old'));
    }
  }

  lemma NothingAnswered(old': Body, new': Body, seg: Segment)
    requires Grows(old', new') && old'.messages == []
    ensures Carries(seg, seg, 0, AnsweredLater(old', new'))
  {
  }

  lemma SamePreamble(old': Body, new': Body)
    requires Grows(old', new')
    ensures Preamble(new') == Preamble(old') && PreambleBytes(new') == PreambleBytes(old')
  {
  }

  /** The last segment is the one exception, and it can change kind: a pending tool call
      becomes a tool pair once its answer arrives. */
  lemma LastSegmentMayChange()
    ensures exists old': Body, new': Body ::
      Grows(old', new') && Segments(old') != [] && |Segments(old')| == |Segments(new')| == 1 &&
      Segments(old')[0].kind == AssistantTurn && Segments(new')[0].kind == ToolPair
  {
    hide Segments;
    var use := Object("u", map["type" := Str("tool_use"), "id" := Str("t")]);
    var res := Object("r", map["type" := Str("tool_result"), "tool_use_id" := Str("t")]);
    var a := Message(Assistant, Blocks([use]));
    var u := Message(User, Blocks([res]));
    var old', new' := Body(None, None, [a], 1), Body(None, None, [a, u], 1);
    assert Kind(use) == ToolUse && Kind(res) == ToolResult;
    assert ToolUseId(use) == Some("t") && ToolUseId(res) == Some("t");
    assert UseIds([use]) == ["t"];
    assert "t" in ["t"] && res in [res];
    assert AnswersOne(["t"], [res]);
    OneSegment(old');
    OneSegment(new');
    assert Grows(old', new');
  }
}
