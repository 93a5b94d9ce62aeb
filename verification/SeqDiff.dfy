/** Pass G: replacing a tool result by a diff against the last comparable result of the same tool. */
module SeqDiff {
  import opened Basics
  import opened Wire
  import opened Segmentation
  import opened Ledger
  import opened Recode
  import Whitespace

  const G_MIN_BYTES := 1024
  const G_MAX_BYTES := 512 * 1024
  const G_MAX_LINES := 10_000
  const AUTHOR := "seq_diff"

  function ResultId(bs: seq<Block>): Option<string> {
    if bs == [] then None
    else if Kind(bs[0]) == ToolResult && ToolResultText(bs[0]).Some? && ToolUseId(bs[0]).Some? then ToolUseId(bs[0])
    else ResultId(bs[1..])
  }

  function AssistantBlocks(msgs: seq<Message>, sources: seq<nat>): seq<Block> {
    if sources == [] then []
    else
      (if sources[0] < |msgs| && msgs[sources[0]].role == Assistant then BlocksOf(msgs[sources[0]].content) else []) +
      AssistantBlocks(msgs, sources[1..])
  }

  function CallName(bs: seq<Block>, id: string): Option<string> {
    if bs == [] then None
    else if Kind(bs[0]) == ToolUse && ToolUseId(bs[0]) == Some(id) && ToolName(bs[0]).Some? then ToolName(bs[0])
    else CallName(bs[1..], id)
  }

  datatype Tool = Tool(name: string, id: string)

  function ResolveTool(body: Body, seg: Segment): Option<Tool> {
    match ResultId(UserBlocks(body.messages, seg.sources))
    case None => None
    case Some(id) =>
      (match CallName(AssistantBlocks(body.messages, seg.sources), id)
       case None => None
       case Some(name) => Some(Tool(name, id)))
  }

  /** The header and diff text, from tool name, base id, base and target: any function. */
  type Render = (string, string, string, string) -> string

  predicate Diffable(s: string) {
    G_MIN_BYTES <= ByteLen(s) < G_MAX_BYTES && |Whitespace.Lines(s)| <= G_MAX_LINES
  }

  /** The leaf a tool was last seen with: its segment's index and its text. */
  datatype Base = Base(index: nat, text: string)

  function DiffProposal(
    body: Body, segs: seq<Segment>, render: Render, seg: Segment, leaf: Leaf, base: Base, name: string):
    (p: Option<Proposal>)
    ensures p.Some? ==> p.value.author == AUTHOR && p.value.segIndex == seg.index
  {
    if !Diffable(base.text) || !Diffable(leaf.content) || base.index >= |segs| then None
    else
      match ResolveTool(body, segs[base.index])
      case None => None
      case Some(tool) =>
        var text := render(name, tool.id, base.text, leaf.content);
        if ByteLen(text) * 2 > ByteLen(leaf.content) then None else RefRecode(seg, leaf, text, leaf.content, AUTHOR)
  }

  datatype State = State(last: map<string, Base>, proposals: seq<Proposal>)

  predicate IsDiff(slot: Option<Proposal>) { slot.Some? && slot.value.author == AUTHOR }

  predicate MayBeBase(leaf: Leaf) { leaf.carried.None? && ByteLen(leaf.content) >= G_MIN_BYTES }

  function StepAt(body: Body, segs: seq<Segment>, render: Render, k: nat, st: State): State
    requires k < |segs|
  {
    var seg := segs[k];
    var slot := Find(st.proposals, seg.index);
    var leaf, tool := LeafFrom(body, seg, slot), ResolveTool(body, seg);
    if IsDiff(slot) || leaf.None? || tool.None? then st
    else
      var name := tool.value.name;
      var p := if name in st.last then DiffProposal(body, segs, render, seg, leaf.value, st.last[name], name) else None;
      if p.Some? then st.(proposals := Upsert(st.proposals, p.value))
      else if MayBeBase(leaf.value) then st.(last := st.last[name := Base(seg.index, leaf.value.content)])
      else st
  }

  /** The state before segment `n`. */
  function RunTo(body: Body, segs: seq<Segment>, render: Render, ps: seq<Proposal>, n: nat): State
    requires n <= |segs|
  {
    if n == 0 then State(map[], ps) else StepAt(body, segs, render, n - 1, RunTo(body, segs, render, ps, n - 1))
  }

  function SeqDiffAll(body: Body, segs: seq<Segment>, render: Render, ps: seq<Proposal>): seq<Proposal> {
    RunTo(body, segs, render, ps, |segs|).proposals
  }

  method ApplySeqDiff(body: Body, segs: seq<Segment>, render: Render, ledger: PlanLedger)
    modifies ledger`proposals
    ensures ledger.proposals == SeqDiffAll(body, segs, render, old(ledger.proposals))
  {
    var lastByTool: map<string, Base> := map[];
    var k := 0;
    while k < |segs|
      invariant k <= |segs|
      invariant State(lastByTool, ledger.proposals) == RunTo(body, segs, render, old(ledger.proposals), k)
    {
      hide LeafFrom, ResolveTool, DiffProposal;
      var seg := segs[k];
      k := k + 1;
      var slot := ledger.ProposalFor(seg.index);
      if IsDiff(slot) { continue; }
      var leaf, tool := LeafFrom(body, seg, slot), ResolveTool(body, seg);
      if leaf.None? || tool.None? { continue; }
      var name := tool.value.name;
      var proposal := None;
      if name in lastByTool {
        proposal := DiffProposal(body, segs, render, seg, leaf.value, lastByTool[name], name);
      }
      if proposal.Some? {
        ledger.UpsertProposal(proposal.value);
      } else if MayBeBase(leaf.value) {
        lastByTool := lastByTool[name := Base(seg.index, leaf.value.content)];
      }
    }
  }

  // ---- the base discipline, read off the final ledger alone ----

  ghost predicate Indexed(segs: seq<Segment>) { forall i :: 0 <= i < |segs| ==> segs[i].index == i }

  /** Segment `j` renders bare in ledger `ps`: a plain leaf, no marker, not itself a diff. */
  predicate RendersBare(body: Body, segs: seq<Segment>, ps: seq<Proposal>, j: nat, name: string, text: string)
    requires j < |segs|
  {
    var slot := Find(ps, segs[j].index);
    var leaf, tool := LeafFrom(body, segs[j], slot), ResolveTool(body, segs[j]);
    !IsDiff(slot) && leaf.Some? && MayBeBase(leaf.value) && leaf.value.content == text && tool.Some? &&
        tool.value.name == name
  }

  /** A step only writes its own segment's proposal. */
  lemma StepTouchesOne(body: Body, segs: seq<Segment>, render: Render, k: nat, st: State, i: nat)
    requires k < |segs| && i != segs[k].index
    ensures Find(StepAt(body, segs, render, k, st).proposals, i) == Find(st.proposals, i)
  {
    hide LeafFrom, ResolveTool, DiffProposal;
    var seg := segs[k];
    var leaf, tool := LeafFrom(body, seg, Find(st.proposals, seg.index)), ResolveTool(body, seg);
    if leaf.Some? && tool.Some? && tool.value.name in st.last {
      var p := DiffProposal(body, segs, render, seg, leaf.value, st.last[tool.value.name], tool.value.name);
      if p.Some? { FindAfterUpsert(st.proposals, p.value, i); }
    }
  }

  lemma {:induction false} LaterStepsKeep(
    body: Body, segs: seq<Segment>, render: Render, ps: seq<Proposal>, n: nat, m: nat, i: nat)
    requires Indexed(segs) && n <= m <= |segs| && (i < n || m <= i)
    ensures Find(RunTo(body, segs, render, ps, m).proposals, i) == Find(RunTo(body, segs, render, ps, n).proposals, i)
    decreases m
  {
    hide StepAt;
    if n < m {
      LaterStepsKeep(body, segs, render, ps, n, m - 1, i);
      StepTouchesOne(body, segs, render, m - 1, RunTo(body, segs, render, ps, m - 1), i);
    }
  }

  /** The bases on record before segment `n`, as the ledger `ps` alone determines them. */
  function BasesIn(body: Body, segs: seq<Segment>, ps: seq<Proposal>, n: nat): map<string, Base>
    requires n <= |segs|
  {
    if n == 0 then map[]
    else
      var before := BasesIn(body, segs, ps, n - 1);
      var seg := segs[n - 1];
      var leaf, tool := LeafFrom(body, seg, Find(ps, seg.index)), ResolveTool(body, seg);
      if !IsDiff(Find(ps, seg.index)) && leaf.Some? && tool.Some? && MayBeBase(leaf.value) then
        before[tool.value.name := Base(seg.index, leaf.value.content)]
      else before
  }

  /** After its own step, a segment is a diff or holds what it held before. */
  lemma OwnStep(body: Body, segs: seq<Segment>, render: Render, k: nat, st: State)
    requires Indexed(segs) && k < |segs|
    ensures var slot, slot' := Find(st.proposals, k), Find(StepAt(body, segs, render, k, st).proposals, k);
            if IsDiff(slot') && !IsDiff(slot) then
              var leaf, tool := LeafFrom(body, segs[k], slot), ResolveTool(body, segs[k]);
              leaf.Some? && tool.Some? && tool.value.name in st.last &&
              slot' == DiffProposal(body, segs, render, segs[k], leaf.value, st.last[tool.value.name], tool.value.name)
            else slot' == slot
    ensures StepAt(body, segs, render, k, st).last ==
            var slot := Find(StepAt(body, segs, render, k, st).proposals, k);
            var leaf, tool := LeafFrom(body, segs[k], slot), ResolveTool(body, segs[k]);
            if !IsDiff(slot) && leaf.Some? && tool.Some? && MayBeBase(leaf.value)
            then st.last[tool.value.name := Base(k, leaf.value.content)] else st.last
  {
    hide LeafFrom, ResolveTool, DiffProposal;
    var seg := segs[k];
    var leaf, tool := LeafFrom(body, seg, Find(st.proposals, seg.index)), ResolveTool(body, seg);
    if leaf.Some? && tool.Some? && tool.value.name in st.last {
      var p := DiffProposal(body, segs, render, seg, leaf.value, st.last[tool.value.name], tool.value.name);
      if p.Some? { FindAfterUpsert(st.proposals, p.value, k); }
    }
  }

  /** The bases the loop keeps are the ones the final ledger shows. */
  lemma {:induction false} BasesAreFinal(body: Body, segs: seq<Segment>, render: Render, ps: seq<Proposal>, n: nat)
    requires Indexed(segs) && n <= |segs|
    ensures RunTo(body, segs, render, ps, n).last == BasesIn(body, segs, SeqDiffAll(body, segs, render, ps), n)
  {
    hide StepAt, LeafFrom, ResolveTool;
    if n > 0 {
      BasesAreFinal(body, segs, render, ps, n - 1);
      OwnStep(body, segs, render, n - 1, RunTo(body, segs, render, ps, n - 1));
      LaterStepsKeep(body, segs, render, ps, n, |segs|, n - 1);
    }
  }

  /** A recorded base is the latest earlier segment of that tool that renders bare. */
  lemma {:induction false} BasesAreLatest(body: Body, segs: seq<Segment>, ps: seq<Proposal>, n: nat, name: string)
    requires Indexed(segs) && n <= |segs|
    ensures var bases := BasesIn(body, segs, ps, n);
            name in bases ==>
              bases[name].index < n && RendersBare(body, segs, ps, bases[name].index, name, bases[name].text) &&
              forall j, text :: bases[name].index < j < n ==> !RendersBare(body, segs, ps, j, name, text)
  {
    hide LeafFrom, ResolveTool;
    if n > 0 { BasesAreLatest(body, segs, ps, n - 1, name); }
  }

  /** Every diff the pass makes is against the latest earlier result of the same tool that the
      model still sees verbatim: the base's final text is exactly the text diffed against, it
      carries no ref and is not a diff, and the diff is at most half of what it replaces. */
  lemma DiffsHaveBareBases(body: Body, segs: seq<Segment>, render: Render, ps: seq<Proposal>, k: nat) returns (j: nat)
    requires Indexed(segs) && k < |segs|
    requires !IsDiff(Find(ps, k)) && IsDiff(Find(SeqDiffAll(body, segs, render, ps), k))
    ensures j < k
    ensures var final := SeqDiffAll(body, segs, render, ps);
            var target, tool, base := LeafFrom(body, segs[k], Find(ps, k)), ResolveTool(body, segs[k]),
                LeafFrom(body, segs[j], Find(final, j));
            target.Some? && tool.Some? && base.Some? && ResolveTool(body, segs[j]).Some? &&
            RendersBare(body, segs, final, j, tool.value.name, base.value.content) &&
            (forall i, text :: j < i < k ==> !RendersBare(body, segs, final, i, tool.value.name, text)) &&
            var text := render(tool.value.name, ResolveTool(body, segs[j]).value.id, base.value.content,
                target.value.content);
            Find(final, k).value.strategy == Strategy.Recode(text, None) &&
                2 * ByteLen(text) <= ByteLen(target.value.content) &&
            Find(final, k).value.needsRef ==
              Some(if target.value.carried.Some? then target.value.carried.value else target.value.content)
  {
    hide StepAt, LeafFrom, ResolveTool, Diffable;
    var final, st := SeqDiffAll(body, segs, render, ps), RunTo(body, segs, render, ps, k);
    LaterStepsKeep(body, segs, render, ps, 0, k, k);
    LaterStepsKeep(body, segs, render, ps, k + 1, |segs|, k);
    OwnStep(body, segs, render, k, st);
    BasesAreFinal(body, segs, render, ps, k);
    var name := ResolveTool(body, segs[k]).value.name;
    BasesAreLatest(body, segs, final, k, name);
    j := st.last[name].index;
  }

  /** Segments the pass leaves alone keep their proposals. */
  lemma OthersAreKept(body: Body, segs: seq<Segment>, render: Render, ps: seq<Proposal>, k: nat)
    requires Indexed(segs)
    requires k >= |segs| || IsDiff(Find(ps, k)) || !IsDiff(Find(SeqDiffAll(body, segs, render, ps), k))
    ensures Find(SeqDiffAll(body, segs, render, ps), k) == Find(ps, k)
  {
    hide StepAt, LeafFrom, ResolveTool;
    if k >= |segs| {
      LaterStepsKeep(body, segs, render, ps, 0, |segs|, k);
    } else {
      LaterStepsKeep(body, segs, render, ps, 0, k, k);
      LaterStepsKeep(body, segs, render, ps, k + 1, |segs|, k);
      OwnStep(body, segs, render, k, RunTo(body, segs, render, ps, k));
    }
  }

  /** Replaying the pass on its own ledger stops at every segment with the same bases and the
      same ledger. */
  lemma {:induction false} ReplayFollows(body: Body, segs: seq<Segment>, render: Render, ps: seq<Proposal>, n: nat)
    requires Indexed(segs) && n <= |segs|
    ensures var final := SeqDiffAll(body, segs, render, ps);
            RunTo(body, segs, render, final, n) == State(RunTo(body, segs, render, ps, n).last, final)
  {
    hide StepAt;
    var final := SeqDiffAll(body, segs, render, ps);
    if n > 0 {
      ReplayFollows(body, segs, render, ps, n - 1);
      ReplayStep(body, segs, render, ps, n - 1);
    }
  }

  lemma ReplayStep(body: Body, segs: seq<Segment>, render: Render, ps: seq<Proposal>, k: nat)
    requires Indexed(segs) && k < |segs|
    ensures var final, st := SeqDiffAll(body, segs, render, ps), RunTo(body, segs, render, ps, k);
            StepAt(body, segs, render, k, State(st.last, final)) == State(StepAt(body, segs, render, k, st).last, final)
  {
    hide LeafFrom, ResolveTool, DiffProposal, MayBeBase;
    var final, st := SeqDiffAll(body, segs, render, ps), RunTo(body, segs, render, ps, k);
    OwnStep(body, segs, render, k, st);
    LaterStepsKeep(body, segs, render, ps, k + 1, |segs|, k);
    if !IsDiff(Find(final, k)) {
      assert Find(st.proposals, k) == Find(final, k);
      NoDiffEmitted(body, segs, render, k, st);
    }
  }

  lemma NoDiffEmitted(body: Body, segs: seq<Segment>, render: Render, k: nat, st: State)
    requires Indexed(segs) && k < |segs|
    requires !IsDiff(Find(StepAt(body, segs, render, k, st).proposals, k))
    ensures StepAt(body, segs, render, k, st).proposals == st.proposals
  {
    hide LeafFrom, ResolveTool, DiffProposal, MayBeBase;
    var seg := segs[k];
    var leaf, tool := LeafFrom(body, seg, Find(st.proposals, seg.index)), ResolveTool(body, seg);
    if leaf.Some? && tool.Some? && tool.value.name in st.last {
      var p := DiffProposal(body, segs, render, seg, leaf.value, st.last[tool.value.name], tool.value.name);
      if p.Some? { FindAfterUpsert(st.proposals, p.value, k); }
    }
  }

  /** Running the pass again changes nothing. */
  lemma SeqDiffIdempotent(body: Body, segs: seq<Segment>, render: Render, ps: seq<Proposal>)
    requires Indexed(segs)
    ensures var final := SeqDiffAll(body, segs, render, ps);
            SeqDiffAll(body, segs, render, final) == final
  {
    ReplayFollows(body, segs, render, ps, |segs|);
  }
}
