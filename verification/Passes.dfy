/** When the two passes that compare segments fire: the back-reference pass and the sequential diff. */
module Passes {
  import opened Basics
  import opened Wire
  import opened Segmentation
  import opened Ledger
  import opened Recode
  import opened RecodeChain
  import opened SeqDiff
  import Whitespace

  // ---- repeats ----

  /** A raw leaf of at least 1024 bytes that an earlier segment has too. */
  ghost predicate RepeatsText(body: Body, segs: seq<Segment>, k: nat, text: string)
    requires k < |segs|
  {
    RawLeaf(body, segs[k]) == Some(text) && ByteLen(text) >= 1024 &&
    exists j :: 0 <= j < k && RawLeaf(body, segs[j]) == Some(text)
  }

  /** The back-reference pass empties exactly the repeats, whatever was proposed for them, keeps the raw
      leaf as what the ref must restore, and leaves every other proposal as it was. */
  lemma DedupIff(body: Body, segs: seq<Segment>, ps: seq<Proposal>, k: nat, text: string)
    requires SeqDiff.Indexed(segs) && k < |segs|
    ensures RepeatsText(body, segs, k, text) ==>
              Find(DedupAll(body, segs, ps), k) ==
              Some(Proposal(k, Strategy.Recode("", None), None, Some(text), EstimateTokens(text), "dedup_backref"))
    ensures (forall t :: !RepeatsText(body, segs, k, t)) ==> Find(DedupAll(body, segs, ps), k) == Find(ps, k)
  {
    hide RawLeaf, DedupAll, Find;
    DedupReplacesRepeats(body, segs, ps, k);
    KeysAre(body, segs, k);
    if Repeats(body, segs, k) { assert RepeatsText(body, segs, k, RawLeaf(body, segs[k]).value); }
  }

  lemma KeysAre(body: Body, segs: seq<Segment>, k: nat)
    requires k < |segs|
    ensures Repeats(body, segs, k) <==>
            RawLeaf(body, segs[k]).Some? && RepeatsText(body, segs, k, RawLeaf(body, segs[k]).value)
  {
    hide RawLeaf;
    if Repeats(body, segs, k) {
      var j :| 0 <= j < k && DedupKey(body, segs[j]) == DedupKey(body, segs[k]);
      assert RawLeaf(body, segs[j]) == RawLeaf(body, segs[k]);
    }
    if RawLeaf(body, segs[k]).Some? && RepeatsText(body, segs, k, RawLeaf(body, segs[k]).value) {
      var j :| 0 <= j < k && RawLeaf(body, segs[j]) == RawLeaf(body, segs[k]);
      assert DedupKey(body, segs[j]) == DedupKey(body, segs[k]);
    }
  }

  // ---- diffs ----

  /** At least 1 KiB, below 512 KiB, at most ten thousand lines. */
  predicate Comparable(s: string) { 1024 <= ByteLen(s) < 524288 && |Whitespace.Lines(s)| <= 10000 }

  /** Segment `j` shows `text` of that tool verbatim: not a diff, no ref behind it, at least 1 KiB. */
  ghost predicate ShowsBare(body: Body, segs: seq<Segment>, ps: seq<Proposal>, j: nat, name: string, text: string)
    requires j < |segs|
  {
    var slot := Find(ps, j);
    var leaf, tool := LeafFrom(body, segs[j], slot), ResolveTool(body, segs[j]);
    !(slot.Some? && slot.value.author == "seq_diff") && leaf.Some? && leaf.value.carried.None? &&
    leaf.value.content == text && ByteLen(text) >= 1024 && tool.Some? && tool.value.name == name
  }

  lemma BareIff(body: Body, segs: seq<Segment>, ps: seq<Proposal>, j: nat, name: string, text: string)
    requires SeqDiff.Indexed(segs) && j < |segs|
    ensures RendersBare(body, segs, ps, j, name, text) <==> ShowsBare(body, segs, ps, j, name, text)
  {
    hide LeafFrom, ResolveTool, Find;
  }

  /** `j` is the last segment before `k` that shows anything of that tool bare. */
  ghost predicate LatestBare(
    body: Body, segs: seq<Segment>, ps: seq<Proposal>, k: nat, j: nat, name: string, text: string)
    requires k <= |segs|
  {
    j < k && ShowsBare(body, segs, ps, j, name, text) &&
    forall i, t :: j < i < k ==> !ShowsBare(body, segs, ps, i, name, t)
  }

  lemma {:induction false} BasesAre(body: Body, segs: seq<Segment>, ps: seq<Proposal>, n: nat, name: string)
    requires SeqDiff.Indexed(segs) && n <= |segs|
    ensures var bases := BasesIn(body, segs, ps, n);
            (name in bases ==> LatestBare(body, segs, ps, n, bases[name].index, name, bases[name].text)) &&
            (name !in bases ==> forall j, text :: 0 <= j < n ==> !ShowsBare(body, segs, ps, j, name, text))
  {
    hide LeafFrom, ResolveTool, Find;
    if n > 0 {
      BasesAre(body, segs, ps, n - 1, name);
      assert segs[n - 1].index == n - 1;
    }
  }

  lemma OneBase(
    body: Body, segs: seq<Segment>, ps: seq<Proposal>, k: nat, name: string, j: nat, text: string, j': nat,
        text': string)
    requires k <= |segs| && LatestBare(body, segs, ps, k, j, name, text) &&
             LatestBare(body, segs, ps, k, j', name, text')
    ensures j == j' && text == text'
  {
    hide LeafFrom, ResolveTool, Find;
  }

  /** The diff of segment `k` against `base` in segment `j`, when there is one to make. */
  ghost predicate Diffs(
    body: Body, segs: seq<Segment>, render: SeqDiff.Render, ps: seq<Proposal>, k: nat, j: nat, base: string,
        text: string)
    requires k < |segs| && j < |segs|
  {
    var leaf, tool, tool' := LeafFrom(body, segs[k], Find(ps, k)), ResolveTool(body, segs[k]),
        ResolveTool(body, segs[j]);
    leaf.Some? && tool.Some? && tool'.Some? && Comparable(base) && Comparable(leaf.value.content) &&
    text == render(tool.value.name, tool'.value.id, base, leaf.value.content) &&
    2 * ByteLen(text) <= ByteLen(leaf.value.content)
  }

  lemma DiffProposalIff(
    body: Body, segs: seq<Segment>, render: SeqDiff.Render, ps: seq<Proposal>, k: nat, leaf: Leaf, base: Base,
    name: string)
    requires SeqDiff.Indexed(segs) && k < |segs| && base.index < |segs|
    requires LeafFrom(body, segs[k], Find(ps, k)) == Some(leaf)
    requires ResolveTool(body, segs[k]).Some? && ResolveTool(body, segs[k]).value.name == name
    ensures DiffProposal(body, segs, render, segs[k], leaf, base, name).Some? <==>
            exists text :: Diffs(body, segs, render, ps, k, base.index, base.text, text)
  {
    hide LeafFrom, ResolveTool, Find, Whitespace.Lines;
    var tool := ResolveTool(body, segs[base.index]);
    if tool.Some? && Comparable(base.text) && Comparable(leaf.content) {
      var text := render(name, tool.value.id, base.text, leaf.content);
      assert Diffs(body, segs, render, ps, k, base.index, base.text, text) <==>
             2 * ByteLen(text) <= ByteLen(leaf.content);
    }
  }

  lemma StepDiffs(body: Body, segs: seq<Segment>, render: SeqDiff.Render, k: nat, st: State)
    requires SeqDiff.Indexed(segs) && k < |segs| && !IsDiff(Find(st.proposals, k))
    ensures IsDiff(Find(StepAt(body, segs, render, k, st).proposals, k)) <==>
            var leaf, tool := LeafFrom(body, segs[k], Find(st.proposals, k)), ResolveTool(body, segs[k]);
            leaf.Some? && tool.Some? && tool.value.name in st.last &&
            DiffProposal(body, segs, render, segs[k], leaf.value, st.last[tool.value.name], tool.value.name).Some?
  {
    hide LeafFrom, ResolveTool, DiffProposal, Find, Upsert;
    var leaf, tool := LeafFrom(body, segs[k], Find(st.proposals, k)), ResolveTool(body, segs[k]);
    if leaf.Some? && tool.Some? && tool.value.name in st.last {
      var p := DiffProposal(body, segs, render, segs[k], leaf.value, st.last[tool.value.name], tool.value.name);
      if p.Some? { FindAfterUpsert(st.proposals, p.value, k); }
    }
  }

  /** A segment not yet a diff becomes one exactly when the latest earlier segment that shows the same
      tool's result bare is comparable with it and the diff is at most half as long. */
  lemma DiffIff(body: Body, segs: seq<Segment>, render: SeqDiff.Render, ps: seq<Proposal>, k: nat)
    requires SeqDiff.Indexed(segs) && k < |segs| && !IsDiff(Find(ps, k))
    ensures var final := SeqDiffAll(body, segs, render, ps);
            IsDiff(Find(final, k)) <==>
            ResolveTool(body, segs[k]).Some? &&
            exists j: nat, base, text ::
              LatestBare(body, segs, final, k, j, ResolveTool(body, segs[k]).value.name, base) &&
              Diffs(body, segs, render, ps, k, j, base, text)
  {
    hide LeafFrom, ResolveTool, DiffProposal, Find, StepAt, ShowsBare, Diffs;
    var final, st := SeqDiffAll(body, segs, render, ps), RunTo(body, segs, render, ps, k);
    LaterStepsKeep(body, segs, render, ps, 0, k, k);
    LaterStepsKeep(body, segs, render, ps, k + 1, |segs|, k);
    StepDiffs(body, segs, render, k, st);
    BasesAreFinal(body, segs, render, ps, k);
    var leaf, tool := LeafFrom(body, segs[k], Find(ps, k)), ResolveTool(body, segs[k]);
    if tool.Some? {
      var name := tool.value.name;
      BasesAre(body, segs, final, k, name);
      if name in st.last {
        var b := st.last[name];
        if leaf.Some? { DiffProposalIff(body, segs, render, ps, k, leaf.value, b, name); }
        if j: nat, base, text :| LatestBare(body, segs, final, k, j, name, base) &&
                                 Diffs(body, segs, render, ps, k, j, base, text) {
          OneBase(body, segs, final, k, name, j, base, b.index, b.text);
          NeedsLeaf(body, segs, render, ps, k, j, base, text);
        }
      }
    }
  }

  lemma NeedsLeaf(
    body: Body, segs: seq<Segment>, render: SeqDiff.Render, ps: seq<Proposal>, k: nat, j: nat, base: string,
        text: string)
    requires k < |segs| && j < |segs| && Diffs(body, segs, render, ps, k, j, base, text)
    ensures LeafFrom(body, segs[k], Find(ps, k)).Some?
  {
    hide LeafFrom, ResolveTool, Find;
  }

  // ---- the tool of a segment ----

  /** A result that reads as a string, for call `id`. */
  predicate ReadsFor(b: Block, id: string) {
    Kind(b) == ToolResult && "content" in b.fields && b.fields["content"].Str? && ToolUseId(b) == Some(id)
  }

  predicate CallsNamed(b: Block, id: string, name: string) {
    Kind(b) == ToolUse && ToolUseId(b) == Some(id) && "name" in b.fields && b.fields["name"] == Str(name)
  }

  /** The first of the blocks to read for any call reads for `id`. */
  ghost predicate FirstReads(bs: seq<Block>, id: string) {
    exists j :: 0 <= j < |bs| && ReadsFor(bs[j], id) && forall i, x :: 0 <= i < j ==> !ReadsFor(bs[i], x)
  }

  /** The first of the blocks to make call `id` under any name makes it under `name`. */
  ghost predicate FirstCalls(bs: seq<Block>, id: string, name: string) {
    exists j :: 0 <= j < |bs| && CallsNamed(bs[j], id, name) && forall i, x :: 0 <= i < j ==> !CallsNamed(bs[i], id, x)
  }

  lemma {:induction false} ResultIdIff(bs: seq<Block>, id: string)
    ensures ResultId(bs) == Some(id) <==> FirstReads(bs, id)
  {
    hide Kind, ToolUseId;
    if bs != [] {
      ResultIdIff(bs[1..], id);
      assert forall i :: 0 <= i < |bs[1..]| ==> bs[1..][i] == bs[i + 1];
      HeadReads(bs[0]);
      hide ReadsFor, ToolResultText, ResultId;
    }
  }

  lemma HeadReads(b: Block)
    ensures (Kind(b) == ToolResult && ToolResultText(b).Some? && ToolUseId(b).Some?) <==> exists x :: ReadsFor(b, x)
    ensures forall x :: ReadsFor(b, x) ==> ToolUseId(b) == Some(x)
  {
    if Kind(b) == ToolResult && ToolResultText(b).Some? && ToolUseId(b).Some? {
      assert ReadsFor(b, ToolUseId(b).value);
    }
  }

  lemma {:induction false} CallNameIff(bs: seq<Block>, id: string, name: string)
    ensures CallName(bs, id) == Some(name) <==> FirstCalls(bs, id, name)
  {
    hide Kind, ToolUseId;
    if bs != [] {
      CallNameIff(bs[1..], id, name);
      assert forall i :: 0 <= i < |bs[1..]| ==> bs[1..][i] == bs[i + 1];
      HeadCalls(bs[0], id);
      hide CallsNamed, ToolName, CallName;
    }
  }

  lemma NameIs(b: Block, name: string)
    requires Kind(b) == ToolUse && IdFieldsDecode(b)
    ensures ToolName(b) == Some(name) <==> "name" in b.fields && b.fields["name"] == Str(name)
  {
  }

  lemma HeadCalls(b: Block, id: string)
    ensures (Kind(b) == ToolUse && ToolUseId(b) == Some(id) && ToolName(b).Some?) <==> exists x :: CallsNamed(b, id, x)
    ensures forall x :: CallsNamed(b, id, x) ==> ToolName(b) == Some(x)
  {
    if Kind(b) == ToolUse && ToolUseId(b) == Some(id) {
      hide Kind, ToolName;
      forall x ensures ToolName(b) == Some(x) <==> CallsNamed(b, id, x) { NameIs(b, x); }
      if ToolName(b).Some? { assert CallsNamed(b, id, ToolName(b).value); }
    }
  }

  /** A segment's tool: the call its first string result answers, by the name of the first such call. */
  lemma ToolIff(body: Body, seg: Segment, name: string, id: string)
    ensures var results, calls := UserBlocks(body.messages, seg.sources), AssistantBlocks(body.messages, seg.sources);
            ResolveTool(body, seg) == Some(Tool(name, id)) <==> FirstReads(results, id) && FirstCalls(calls, id, name)
  {
    hide ResultId, CallName, FirstReads, FirstCalls, UserBlocks, AssistantBlocks;
    ResultIdIff(UserBlocks(body.messages, seg.sources), id);
    CallNameIff(AssistantBlocks(body.messages, seg.sources), id, name);
  }
}
