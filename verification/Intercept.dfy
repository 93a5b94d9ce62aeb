/** One on-path interception: fast-lane entries, the staged or budget base, and the single splice. */
module Intercept {
  import opened Basics
  import opened Wire
  import opened Segmentation
  import opened Recode
  import opened FastLane
  import opened Targets
  import opened Rewrite
  import Budget
  import Ledger

  type Key = string

  const FAST_LANE_MAX_LEAF := 256 * 1024
  const DROP_PLACEHOLDER := "[cc-squash: dropped under budget pressure]"

  /** What the proxy takes from libraries: content hash, JSON minifier and printer, the textual
      test for hints, and the gate's remaining checks on the rewritten body. */
  datatype World = World(
    address: string -> Key, minify: string -> Option<string>, printer: Printer,
    mentionsHint: Message -> bool, prefixHints: Body -> nat, accepts: Body -> bool)

  /** The session state one turn reads. */
  datatype Inputs = Inputs(
    fastLane: set<Key>, lastMessageCount: nat, windowClosed: bool, staged: Option<set<Key>>, recencyWindow: nat)

  /** What pricing decides about the staged batch: which matched segments stay in it, whether it
      is applied (with which breakpoints) or held, and the texts staged for its targets. */
  datatype Choice = Choice(picks: nat -> bool, apply: Option<seq<nat>>, texts: (nat, Target) -> string)

  function KeyOf(body: Body, seg: Segment, w: World): Key { w.address(Payload(seg, body)) }

  // ---- the fast lane ----

  datatype LaneEntry = LaneEntry(seg: nat, key: Key, isNew: bool, rendered: seq<Rendered>)

  predicate ProvablyUncached(seg: Segment, lastMessageCount: nat) {
    seg.sources != [] && forall j :: 0 <= j < |seg.sources| ==> seg.sources[j] >= lastMessageCount
  }

  /** Every target must shrink. */
  function LaneRendering(ts: seq<Target>, cleaned: string, printer: Printer): Option<seq<Rendered>> {
    if ts == [] then Some([])
    else
      var r := Render(ts[0], cleaned, printer);
      match LaneRendering(ts[1..], cleaned, printer)
      case None => None
      case Some(rest) =>
        if PrintedLen(ts[0].kind, cleaned, printer) < ts[0].originalLen then Some([r] + rest) else None
  }

  function LaneFor(body: Body, segs: seq<Segment>, k: nat, inputs: Inputs, w: World): Option<LaneEntry>
    requires k < |segs|
  {
    var seg, key := segs[k], KeyOf(body, segs[k], w);
    var isNew := key !in inputs.fastLane;
    var covered := inputs.staged.Some? && key in inputs.staged.value;
    if isNew && (covered || inputs.windowClosed || !ProvablyUncached(seg, inputs.lastMessageCount)) then None
    else
      match FastLaneLeaf(body, seg)
      case None => None
      case Some(leaf) =>
        if ByteLen(leaf) > FAST_LANE_MAX_LEAF then None
        else
          match FastLaneClean(leaf, w.minify)
          case None => None
          case Some(cleaned) =>
            match LaneRendering(SquashTargets(body, seg), cleaned, w.printer)
            case None => None
            case Some(rs) => if rs == [] then None else Some(LaneEntry(k, key, isNew, rs))
  }

  function LaneEntries(body: Body, segs: seq<Segment>, n: nat, inputs: Inputs, w: World): seq<LaneEntry>
    requires n <= |segs|
  {
    if n == 0 then []
    else
      LaneEntries(body, segs, n - 1, inputs, w) +
      match LaneFor(body, segs, n - 1, inputs, w) case Some(e) => [e] case None => []
  }

  // ---- the two bases ----

  /** The staged rows that survive selection, in segment order. */
  function Live(body: Body, segs: seq<Segment>, n: nat, plan: set<Key>, choice: Choice, w: World): seq<nat>
    requires n <= |segs|
  {
    if n == 0 then []
    else
      var k := n - 1;
      Live(body, segs, k, plan, choice, w) +
      if KeyOf(body, segs[k], w) in plan && SquashTargets(body, segs[k]) != [] && choice.picks(k) then [k] else []
  }

  function StagedBase(body: Body, segs: seq<Segment>, live: seq<nat>, choice: Choice, printer: Printer): seq<Rendered> {
    if live == [] then []
    else
      var k := live[0];
      (if k < |segs| then RenderTargets(SquashTargets(body, segs[k]), (t: Target) => Some(choice.texts(k, t)),
          printer) else []) +
      StagedBase(body, segs, live[1..], choice, printer)
  }

  predicate RecencyProtected(segs: seq<Segment>, k: nat, window: nat) { k >= Budget.SatSub(|segs|, window) }

  /** A drop is rendered only where it shrinks the block. */
  function DropText(printer: Printer): Target -> Option<string> {
    (t: Target) =>
      if t.originalLen > PrintedLen(t.kind, DROP_PLACEHOLDER, printer) then Some(DROP_PLACEHOLDER)
          else None
  }

  function BudgetBase(
    body: Body, segs: seq<Segment>, ps: seq<Ledger.Proposal>, window: nat, printer: Printer): seq<Rendered> {
    if ps == [] then []
    else
      var k := ps[0].segIndex;
      (if k < |segs| && !segs[k].pinned && !RecencyProtected(segs, k, window)
       then RenderTargets(SquashTargets(body, segs[k]), DropText(printer), printer) else []) +
      BudgetBase(body, segs, ps[1..], window, printer)
  }

  // ---- the splice ----

  datatype Outcome = Identity | Spliced(body: Body, committed: seq<Key>, uncommitted: seq<Key>)

  function Egress(body: Body, o: Outcome): Body { if o.Spliced? then o.body else body }

  function Committed(o: Outcome): seq<Key> { if o.Spliced? then o.committed else [] }

  function Uncommitted(o: Outcome): seq<Key> { if o.Spliced? then o.uncommitted else [] }

  predicate Taken(base: seq<Rendered>, r: Rendered) {
    exists b :: b in base && b.message == r.message && b.at == r.at
  }

  /** The entries none of whose places the base takes. */
  function Standing(lane: seq<LaneEntry>, base: seq<Rendered>): seq<LaneEntry> {
    if lane == [] then []
    else
      (if exists r :: r in lane[0].rendered && Taken(base, r) then [] else [lane[0]]) + Standing(lane[1..], base)
  }

  function Flatten(lane: seq<LaneEntry>): seq<Rendered> {
    if lane == [] then [] else lane[0].rendered + Flatten(lane[1..])
  }

  function FreshKeys(lane: seq<LaneEntry>): seq<Key> {
    if lane == [] then [] else (if lane[0].isNew then [lane[0].key] else []) + FreshKeys(lane[1..])
  }

  /** Planned breakpoints on messages the base rewrote. */
  function SafeBreakpoints(positions: seq<nat>, base: seq<Rendered>): seq<nat> {
    if positions == [] then []
    else
      (if exists r :: r in base && r.message == positions[0] then [positions[0]] else []) +
      SafeBreakpoints(positions[1..], base)
  }

  function Finish(
    body: Body, base: seq<Rendered>, uncommit: seq<Key>, lane: seq<LaneEntry>, positions: seq<nat>, w: World): Outcome {
    var standing := Standing(lane, base);
    var rs := base + Flatten(standing);
    if rs == [] then Identity
    else
      match Splice(body, rs, KeptHints(positions, |body.messages|, w.prefixHints(body)), w.mentionsHint, w.printer)
      case Err(_) => Identity
      case Ok(out) =>
        if CheckPairsAndRoles(body, out) == Pass && w.accepts(out)
            then Spliced(out, FreshKeys(standing), uncommit) else Identity
  }

  function CommittedKeys(body: Body, segs: seq<Segment>, live: seq<nat>, fastLane: set<Key>, w: World): seq<Key> {
    if live == [] then []
    else
      (if live[0] < |segs| && KeyOf(body, segs[live[0]], w) in fastLane then [KeyOf(body, segs[live[0]], w)] else []) +
      CommittedKeys(body, segs, live[1..], fastLane, w)
  }

  /** What goes under the lane this turn: renderings, keys to un-commit, breakpoints. */
  datatype Base = Base(rendered: seq<Rendered>, uncommit: seq<Key>, positions: seq<nat>)

  function BaseFor(body: Body, inputs: Inputs, w: World, choice: Choice): Base {
    var segs := Segments(body);
    match inputs.staged
    case Some(plan) =>
      var live := Live(body, segs, |segs|, plan, choice, w);
      if live == [] || choice.apply.None? then Base([], [], [])
      else
        var rendered := StagedBase(body, segs, live, choice, w.printer);
        Base(rendered, CommittedKeys(body, segs, live, inputs.fastLane, w),
            SafeBreakpoints(choice.apply.value, rendered))
    case None =>
      var justAdded := if segs == [] then 0 else segs[|segs| - 1].tokens;
      if Budget.OverBudget(body.maxTokens, justAdded) then
        Base(BudgetBase(body, segs, Budget.LedgerLadder(body, segs, Budget.Target(body)), inputs.recencyWindow,
            w.printer), [], [])
      else Base([], [], [])
  }

  function Intercept(body: Body, inputs: Inputs, w: World, choice: Choice): Outcome {
    var segs, base := Segments(body), BaseFor(body, inputs, w, choice);
    Finish(body, base.rendered, base.uncommit, LaneEntries(body, segs, |segs|, inputs, w), base.positions, w)
  }

  // ---- where renderings come from ----

  lemma {:induction false} LaneEntryOrigin(
    body: Body, segs: seq<Segment>, n: nat, inputs: Inputs, w: World, e: LaneEntry)
    requires n <= |segs| && e in LaneEntries(body, segs, n, inputs, w)
    ensures e.seg < n && LaneFor(body, segs, e.seg, inputs, w) == Some(e)
  {
    hide LaneFor;
    assert n > 0;
    var last := LaneFor(body, segs, n - 1, inputs, w);
    if e in LaneEntries(body, segs, n - 1, inputs, w) {
      LaneEntryOrigin(body, segs, n - 1, inputs, w, e);
    } else {
      LaneForIsItsSegment(body, segs, n - 1, inputs, w);
    }
  }

  lemma LaneForIsItsSegment(body: Body, segs: seq<Segment>, k: nat, inputs: Inputs, w: World)
    requires k < |segs|
    ensures LaneFor(body, segs, k, inputs, w).Some? ==> LaneFor(body, segs, k, inputs, w).value.seg == k
  {
    hide FastLaneLeaf, FastLaneClean, LaneRendering, SquashTargets, ProvablyUncached;
  }

  lemma {:induction false} LaneEntryPresent(body: Body, segs: seq<Segment>, n: nat, inputs: Inputs, w: World, k: nat)
    requires k < n <= |segs| && LaneFor(body, segs, k, inputs, w).Some?
    ensures LaneFor(body, segs, k, inputs, w).value in LaneEntries(body, segs, n, inputs, w)
  {
    hide LaneFor;
    if k < n - 1 { LaneEntryPresent(body, segs, n - 1, inputs, w, k); }
  }

  lemma {:induction false} StandingMembers(lane: seq<LaneEntry>, base: seq<Rendered>, e: LaneEntry)
    ensures e in Standing(lane, base) <==> e in lane && !exists r :: r in e.rendered && Taken(base, r)
  {
    hide Taken;
    if lane != [] {
      StandingMembers(lane[1..], base, e);
      assert lane == [lane[0]] + lane[1..];
    }
  }

  lemma {:induction false} FlattenMembers(lane: seq<LaneEntry>, r: Rendered)
    ensures r in Flatten(lane) <==> exists e :: e in lane && r in e.rendered
  {
    if lane != [] {
      FlattenMembers(lane[1..], r);
      assert lane == [lane[0]] + lane[1..];
    }
  }

  lemma {:induction false} FreshKeysMembers(lane: seq<LaneEntry>, key: Key)
    ensures key in FreshKeys(lane) <==> exists e :: e in lane && e.isNew && e.key == key
  {
    if lane != [] {
      FreshKeysMembers(lane[1..], key);
      assert lane == [lane[0]] + lane[1..];
    }
  }

  lemma {:induction false} LaneRenderingMembers(
    ts: seq<Target>, cleaned: string, printer: Printer, r: Rendered) returns (k: nat)
    requires LaneRendering(ts, cleaned, printer).Some? && r in LaneRendering(ts, cleaned, printer).value
    ensures k < |ts| && r == Render(ts[k], cleaned, printer)
  {
    hide Render;
    if r == Render(ts[0], cleaned, printer) {
      k := 0;
    } else {
      k := LaneRenderingMembers(ts[1..], cleaned, printer, r);
      k := k + 1;
    }
  }

  lemma {:induction false} RenderTargetsMembers(
    ts: seq<Target>, texts: Target -> Option<string>, printer: Printer, r: Rendered)
    returns (k: nat)
    requires r in RenderTargets(ts, texts, printer)
    ensures k < |ts| && texts(ts[k]).Some? && r == Render(ts[k], texts(ts[k]).value, printer)
  {
    hide Render;
    if texts(ts[0]).Some? && r == Render(ts[0], texts(ts[0]).value, printer) {
      k := 0;
    } else {
      k := RenderTargetsMembers(ts[1..], texts, printer, r);
      k := k + 1;
    }
  }

  lemma {:induction false} StagedBaseOrigin(
    body: Body, segs: seq<Segment>, live: seq<nat>, choice: Choice, printer: Printer, r: Rendered)
    returns (k: nat)
    requires r in StagedBase(body, segs, live, choice, printer)
    ensures k in live && k < |segs| && r.message in segs[k].sources && Fits(r, body.messages)
  {
    hide SquashTargets, Fits, Offered;
    k := live[0];
    var head := if k < |segs|
        then RenderTargets(SquashTargets(body, segs[k]), (t: Target) => Some(choice.texts(k, t)), printer) else [];
    if r in head {
      var j := RenderTargetsMembers(SquashTargets(body, segs[k]), (t: Target) => Some(choice.texts(k, t)), printer, r);
      SquashTargetsOffered(body, segs[k], j);
      RenderFits(SquashTargets(body, segs[k])[j], choice.texts(k, SquashTargets(body, segs[k])[j]), printer,
          body.messages);
    } else {
      k := StagedBaseOrigin(body, segs, live[1..], choice, printer, r);
    }
  }

  lemma {:induction false} BudgetBaseOrigin(
    body: Body, segs: seq<Segment>, ps: seq<Ledger.Proposal>, window: nat, printer: Printer, r: Rendered)
    returns (k: nat)
    requires r in BudgetBase(body, segs, ps, window, printer)
    ensures k in Budget.Indices(ps) && k < |segs| && r.message in segs[k].sources && Fits(r, body.messages)
    ensures !segs[k].pinned && !RecencyProtected(segs, k, window)
  {
    hide SquashTargets, Fits, Offered;
    k := ps[0].segIndex;
    assert ps[0] in ps;
    var head := if k < |segs| && !segs[k].pinned && !RecencyProtected(segs, k, window)
                then RenderTargets(SquashTargets(body, segs[k]), DropText(printer), printer) else [];
    if r in head {
      var j := RenderTargetsMembers(SquashTargets(body, segs[k]), DropText(printer), printer, r);
      SquashTargetsOffered(body, segs[k], j);
      RenderFits(SquashTargets(body, segs[k])[j], DropText(printer)(SquashTargets(body, segs[k])[j]).value, printer,
          body.messages);
    } else {
      k := BudgetBaseOrigin(body, segs, ps[1..], window, printer, r);
      assert forall p :: p in ps[1..] ==> p in ps;
    }
  }

  /** What a lane rendering is: the cleaned bytes put in one result block of the segment's user
      message, and the block only depends on its segment and place. */
  ghost predicate LaneBlock(body: Body, seg: Segment, w: World, r: Rendered) {
    r.message in seg.sources && r.message < |body.messages| && r.at.Some? &&
    r.at.value < |BlocksOf(body.messages[r.message].content)| &&
    FastLaneLeaf(body, seg).Some? && FastLaneClean(FastLaneLeaf(body, seg).value, w.minify).Some? &&
    var b := BlocksOf(body.messages[r.message].content)[r.at.value];
    var cleaned := FastLaneClean(FastLaneLeaf(body, seg).value, w.minify).value;
    b.Object? && Kind(b) == ToolResult && ToolUseId(b).Some? &&
    r.block == Replacement(ResultBlock(ToolUseId(b).value, IsError(b.fields)), cleaned, w.printer)
  }

  lemma {:induction false} BlockTargetsInPairs(m: nat, bs: seq<Block>, from: nat, k: nat)
    requires from <= |bs| && k < |BlockTargets(m, bs, from, true)|
    ensures var t := BlockTargets(m, bs, from, true)[k];
            t.message == m && t.block.Some? && t.block.value < |bs| &&
            var b := bs[t.block.value];
            b.Object? && Kind(b) == ToolResult && ToolUseId(b).Some? &&
                t.kind == ResultBlock(ToolUseId(b).value, IsError(b.fields))
    decreases |bs| - from
  {
    hide ResultFieldsDecode;
    var t := BlockTarget(m, from, bs[from], true);
    if t.None? {
      BlockTargetsInPairs(m, bs, from + 1, k);
    } else if k > 0 {
      BlockTargetsInPairs(m, bs, from + 1, k - 1);
    }
  }

  lemma {:induction false} ResultTargetsInPairs(body: Body, sources: seq<nat>, k: nat)
    requires k < |ResultTargets(body, sources)|
    ensures var t := ResultTargets(body, sources)[k];
            t.message in sources && t.message < |body.messages| && t.block.Some? &&
            t.block.value < |BlocksOf(body.messages[t.message].content)| &&
            var b := BlocksOf(body.messages[t.message].content)[t.block.value];
            b.Object? && Kind(b) == ToolResult && ToolUseId(b).Some? &&
                t.kind == ResultBlock(ToolUseId(b).value, IsError(b.fields))
  {
    hide BlockTargets, Kind, ToolUseId;
    var m := sources[0];
    var head := if m < |body.messages| && body.messages[m].role == User
                then BlockTargets(m, BlocksOf(body.messages[m].content), 0, true) else [];
    if k < |head| {
      BlockTargetsInPairs(m, BlocksOf(body.messages[m].content), 0, k);
    } else {
      ResultTargetsInPairs(body, sources[1..], k - |head|);
    }
  }

  lemma LaneForIsLaneBlocks(body: Body, segs: seq<Segment>, k: nat, inputs: Inputs, w: World, r: Rendered)
    requires k < |segs| && LaneFor(body, segs, k, inputs, w).Some? &&
             r in LaneFor(body, segs, k, inputs, w).value.rendered
    ensures LaneBlock(body, segs[k], w, r) && Fits(r, body.messages)
  {
    hide FastLaneClean, Kind, ToolUseId, ResultTargets, Fits, Offered, ProvablyUncached, RawLeaf, Replacement;
    var seg := segs[k];
    var cleaned := FastLaneClean(FastLaneLeaf(body, seg).value, w.minify).value;
    var j := LaneRenderingMembers(SquashTargets(body, seg), cleaned, w.printer, r);
    SquashTargetsOffered(body, seg, j);
    RenderFits(SquashTargets(body, seg)[j], cleaned, w.printer, body.messages);
    ResultTargetsInPairs(body, seg.sources, j);
  }

  // ---- the commitment set ----

  /** New keys were not committed, released keys were, and without staging nothing is released. */
  lemma CommitmentDeltas(body: Body, inputs: Inputs, w: World, choice: Choice)
    ensures var o := Intercept(body, inputs, w, choice);
            (forall key :: key in Committed(o) ==> key !in inputs.fastLane) &&
            (forall key :: key in Uncommitted(o) ==> key in inputs.fastLane) &&
            (inputs.staged.None? ==> Uncommitted(o) == [])
  {
    hide LaneFor, Splice, Standing, Flatten, KeptHints, CheckPairsAndRoles;
    var segs, o := Segments(body), Intercept(body, inputs, w, choice);
    hide Segments;
    forall key | key in Committed(o) ensures key !in inputs.fastLane {
      var lane := LaneEntries(body, segs, |segs|, inputs, w);
      FreshKeysMembers(Standing(lane, BaseFor(body, inputs, w, choice).rendered), key);
      var e :| e in Standing(lane, BaseFor(body, inputs, w, choice).rendered) && e.isNew && e.key == key;
      StandingMembers(lane, BaseFor(body, inputs, w, choice).rendered, e);
      LaneEntryOrigin(body, segs, |segs|, inputs, w, e);
      LaneFreshMeans(body, segs, e.seg, inputs, w);
    }
    if inputs.staged.Some? {
      var live := Live(body, segs, |segs|, inputs.staged.value, choice, w);
      forall key | key in Uncommitted(o) ensures key in inputs.fastLane {
        CommittedKeysMembers(body, segs, live, inputs.fastLane, w, key);
      }
    }
  }

  lemma LaneFreshMeans(body: Body, segs: seq<Segment>, k: nat, inputs: Inputs, w: World)
    requires k < |segs| && LaneFor(body, segs, k, inputs, w).Some?
    ensures var e := LaneFor(body, segs, k, inputs, w).value;
            e.key == KeyOf(body, segs[k], w) && (e.isNew <==> e.key !in inputs.fastLane) &&
            (e.isNew ==> !inputs.windowClosed && ProvablyUncached(segs[k], inputs.lastMessageCount) &&
                         !(inputs.staged.Some? && e.key in inputs.staged.value))
  {
    hide FastLaneLeaf, FastLaneClean, LaneRendering, SquashTargets, ProvablyUncached;
  }

  lemma {:induction false} CommittedKeysMembers(
    body: Body, segs: seq<Segment>, live: seq<nat>, fastLane: set<Key>, w: World, key: Key)
    ensures key in CommittedKeys(body, segs, live, fastLane, w) <==>
            key in fastLane && exists k :: k in live && k < |segs| && KeyOf(body, segs[k], w) == key
  {
    hide KeyOf;
    if live != [] {
      CommittedKeysMembers(body, segs, live[1..], fastLane, w, key);
      assert live == [live[0]] + live[1..];
    }
  }

  /** A key is newly committed only for a leaf the upstream cache has provably not seen. */
  lemma CommittedIsUncached(body: Body, inputs: Inputs, w: World, choice: Choice, key: Key) returns (k: nat)
    requires key in Committed(Intercept(body, inputs, w, choice))
    ensures k < |Segments(body)| && KeyOf(body, Segments(body)[k], w) == key
    ensures !inputs.windowClosed && ProvablyUncached(Segments(body)[k], inputs.lastMessageCount)
    ensures !(inputs.staged.Some? && key in inputs.staged.value)
  {
    hide LaneFor, Splice, Standing, Flatten, KeptHints, CheckPairsAndRoles;
    var segs := Segments(body);
    hide Segments;
    var lane, base := LaneEntries(body, segs, |segs|, inputs, w), BaseFor(body, inputs, w, choice).rendered;
    FreshKeysMembers(Standing(lane, base), key);
    var e :| e in Standing(lane, base) && e.isNew && e.key == key;
    StandingMembers(lane, base, e);
    LaneEntryOrigin(body, segs, |segs|, inputs, w, e);
    LaneFreshMeans(body, segs, e.seg, inputs, w);
    k := e.seg;
  }

  // ---- committed leaves on a successful splice ----

  lemma {:induction false} LastAtAgrees(i: nat, at: Option<nat>, rs: seq<Rendered>, b: Block)
    requires exists q :: 0 <= q < |rs| && rs[q].message == i && rs[q].at == at
    requires forall q :: 0 <= q < |rs| && rs[q].message == i && rs[q].at == at ==> rs[q].block == b
    ensures LastAt(i, at, rs) == Some(b)
  {
    var last := |rs| - 1;
    if !(rs[last].message == i && rs[last].at == at) {
      var q :| 0 <= q < |rs| && rs[q].message == i && rs[q].at == at;
      assert rs[..last][q] == rs[q];
      LastAtAgrees(i, at, rs[..last], b);
    }
  }

  /** The block of `out` at the rendering's place is the rendering, hints aside. */
  ghost predicate ShowsIn(out: Body, r: Rendered) {
    r.at.Some? && r.message < |out.messages| && r.at.value < |BlocksOf(out.messages[r.message].content)| &&
    SameUpToHint(r.block, BlocksOf(out.messages[r.message].content)[r.at.value])
  }

  ghost predicate BaseOrigin(body: Body, inputs: Inputs, w: World, choice: Choice, b: Rendered, k: nat) {
    var segs := Segments(body);
    k < |segs| && b.message in segs[k].sources && Fits(b, body.messages) &&
    (if inputs.staged.Some?
     then choice.apply.Some? && k in Live(body, segs, |segs|, inputs.staged.value, choice, w)
     else k in Budget.Indices(Budget.LedgerLadder(body, segs, Budget.Target(body))))
  }

  lemma BaseHasOrigins(body: Body, inputs: Inputs, w: World, choice: Choice, b: Rendered) returns (k: nat)
    requires b in BaseFor(body, inputs, w, choice).rendered
    ensures BaseOrigin(body, inputs, w, choice, b, k)
  {
    hide Segments, Live, Fits, Budget.LedgerLadder, Budget.Indices;
    var segs := Segments(body);
    match inputs.staged {
      case Some(plan) => k := StagedBaseOrigin(body, segs, Live(body, segs, |segs|, plan, choice, w), choice,
          w.printer, b);
      case None =>
        k := BudgetBaseOrigin(body, segs, Budget.LedgerLadder(body, segs, Budget.Target(body)), inputs.recencyWindow,
            w.printer, b);
    }
  }

  lemma EverythingFits(body: Body, inputs: Inputs, w: World, choice: Choice)
    ensures var lane, base := LaneEntries(body, Segments(body), |Segments(body)|, inputs, w),
            BaseFor(body, inputs, w, choice).rendered;
            AllFit(base + Flatten(Standing(lane, base)), body.messages)
  {
    hide Segments, LaneFor, Fits, BaseFor, LaneBlock;
    var segs, base := Segments(body), BaseFor(body, inputs, w, choice).rendered;
    var lane := LaneEntries(body, segs, |segs|, inputs, w);
    var rs := base + Flatten(Standing(lane, base));
    forall q | 0 <= q < |rs| ensures Fits(rs[q], body.messages) {
      if rs[q] in base {
        var _ := BaseHasOrigins(body, inputs, w, choice, rs[q]);
      } else {
        assert rs[q] in Flatten(Standing(lane, base));
        var k := StandingBlockOrigin(body, inputs, w, base, rs[q]);
      }
    }
  }

  lemma StandingBlockOrigin(body: Body, inputs: Inputs, w: World, base: seq<Rendered>, r: Rendered) returns (k: nat)
    requires r in Flatten(Standing(LaneEntries(body, Segments(body), |Segments(body)|, inputs, w), base))
    ensures k < |Segments(body)| && LaneBlock(body, Segments(body)[k], w, r) && Fits(r, body.messages)
  {
    hide Segments, LaneFor, Fits, LaneBlock;
    var segs := Segments(body);
    var lane := LaneEntries(body, segs, |segs|, inputs, w);
    FlattenMembers(Standing(lane, base), r);
    var e :| e in Standing(lane, base) && r in e.rendered;
    StandingMembers(lane, base, e);
    LaneEntryOrigin(body, segs, |segs|, inputs, w, e);
    LaneForIsLaneBlocks(body, segs, e.seg, inputs, w, r);
    k := e.seg;
  }

  lemma LaneBlocksAgree(body: Body, w: World, a: nat, b: nat, r: Rendered, r': Rendered)
    requires a < |Segments(body)| && b < |Segments(body)|
    requires LaneBlock(body, Segments(body)[a], w, r) && LaneBlock(body, Segments(body)[b], w, r')
    requires r.message == r'.message && r.at == r'.at
    ensures r.block == r'.block
  {
    hide Segments, Kind, ToolUseId, FastLaneLeaf, FastLaneClean, Replacement;
    if a != b { SegmentsAreDisjoint(body, a, b, r.message); }
  }

  /** A standing lane rendering shows in the spliced body. */
  lemma StandingShows(body: Body, inputs: Inputs, w: World, choice: Choice, e: LaneEntry, r: Rendered)
    requires Intercept(body, inputs, w, choice).Spliced?
    requires e in Standing(LaneEntries(body, Segments(body), |Segments(body)|, inputs, w),
             BaseFor(body, inputs, w, choice).rendered)
    requires r in e.rendered
    ensures ShowsIn(Intercept(body, inputs, w, choice).body, r)
  {
    hide Segments, LaneFor, Fits, BaseFor, LaneBlock, Splice, CheckPairsAndRoles, KeptHints, Standing, Flatten,
        LaneEntries;
    var segs, b := Segments(body), BaseFor(body, inputs, w, choice);
    var base, lane := b.rendered, LaneEntries(body, segs, |segs|, inputs, w);
    var flat := Flatten(Standing(lane, base));
    var rs := base + flat;
    FlattenMembers(Standing(lane, base), r);
    StandingMembers(lane, base, e);
    var a := StandingBlockOrigin(body, inputs, w, base, r);
    var q :| 0 <= q < |flat| && flat[q] == r;
    assert rs[|base| + q] == r;
    assert forall p :: 0 <= p < |base| ==> base[p] in base && !(base[p].message == r.message && base[p].at == r.at) by {
      assert !Taken(base, r);
    }
    forall q | 0 <= q < |rs| && rs[q].message == r.message && rs[q].at == r.at ensures rs[q].block == r.block {
      if q >= |base| {
        assert rs[q] == flat[q - |base|];
        var c := StandingBlockOrigin(body, inputs, w, base, rs[q]);
        LaneBlocksAgree(body, w, c, a, rs[q], r);
      }
    }
    LastAtAgrees(r.message, r.at, rs, r.block);
    EverythingFits(body, inputs, w, choice);
    var kept := KeptHints(b.positions, |body.messages|, w.prefixHints(body));
    LaneBlockInRange(body, segs[a], w, r);
    SpliceIsExact(body, rs, kept, w.mentionsHint, w.printer, r.message);
    var out := Intercept(body, inputs, w, choice).body;
    assert Splice(body, rs, kept, w.mentionsHint, w.printer) == Ok(out);
    var c :| Expected(r.message, body.messages[r.message].content, rs, c) &&
        OnlyHintsDiffer(c, out.messages[r.message].content);
    ShownBlock(body.messages[r.message].content, rs, c, out.messages[r.message].content, r);
  }

  lemma LaneBlockInRange(body: Body, seg: Segment, w: World, r: Rendered)
    requires LaneBlock(body, seg, w, r)
    ensures r.message < |body.messages| && r.at.Some? && r.at.value < |BlocksOf(body.messages[r.message].content)|
  {
  }

  lemma ShownBlock(c0: Content, rs: seq<Rendered>, c: Content, c': Content, r: Rendered)
    requires Expected(r.message, c0, rs, c) && OnlyHintsDiffer(c, c')
    requires r.at.Some? && r.at.value < |BlocksOf(c0)| && LastAt(r.message, r.at, rs) == Some(r.block)
    ensures r.at.value < |BlocksOf(c')| && SameUpToHint(r.block, BlocksOf(c')[r.at.value])
  {
    hide SameUpToHint, LastAt;
  }

  /** Some place of the entry is taken by a base rendering of the same segment. */
  ghost predicate Displaced(body: Body, inputs: Inputs, w: World, choice: Choice, e: LaneEntry, k: nat) {
    exists r, b :: r in e.rendered && b in BaseFor(body, inputs, w, choice).rendered && b.message == r.message &&
        b.at == r.at &&
      BaseOrigin(body, inputs, w, choice, b, k)
  }

  /** On a successful splice, every eligible committed leaf either shows its cleaned bytes at each
      of its places, or is displaced at its own place: by a staged rewrite of that very segment,
      which releases its key, or by a budget drop of that segment, which releases nothing. */
  lemma CommittedLeafShowsOrIsDisplaced(body: Body, inputs: Inputs, w: World, choice: Choice, k: nat)
    requires Intercept(body, inputs, w, choice).Spliced? && k < |Segments(body)|
    requires KeyOf(body, Segments(body)[k], w) in inputs.fastLane
    requires LaneFor(body, Segments(body), k, inputs, w).Some?
    ensures var e, o := LaneFor(body, Segments(body), k, inputs, w).value, Intercept(body, inputs, w, choice);
            (forall r :: r in e.rendered ==> LaneBlock(body, Segments(body)[k], w, r)) &&
            ((forall r :: r in e.rendered ==> ShowsIn(o.body, r)) ||
             (Displaced(body, inputs, w, choice, e, k) &&
              if inputs.staged.Some? then e.key in o.uncommitted else o.uncommitted == []))
  {
    hide Segments, LaneFor, BaseFor, LaneBlock, Splice, CheckPairsAndRoles, KeptHints, LaneEntries, Standing, Flatten,
        BaseOrigin;
    var segs, base := Segments(body), BaseFor(body, inputs, w, choice).rendered;
    var e, lane := LaneFor(body, segs, k, inputs, w).value, LaneEntries(body, segs, |segs|, inputs, w);
    forall r | r in e.rendered ensures LaneBlock(body, segs[k], w, r) {
      LaneForIsLaneBlocks(body, segs, k, inputs, w, r);
    }
    LaneEntryPresent(body, segs, |segs|, inputs, w, k);
    StandingMembers(lane, base, e);
    if r :| r in e.rendered && Taken(base, r) {
      var b :| b in base && b.message == r.message && b.at == r.at;
      var k' := BaseHasOrigins(body, inputs, w, choice, b);
      LaneBlockMessage(body, segs[k], w, r);
      SameSegment(body, inputs, w, choice, b, k', k);
      DisplacementReleases(body, inputs, w, choice, b, k);
      LaneFreshMeans(body, segs, k, inputs, w);
    } else {
      forall r | r in e.rendered ensures ShowsIn(Intercept(body, inputs, w, choice).body, r) {
        StandingShows(body, inputs, w, choice, e, r);
      }
    }
  }

  lemma LaneBlockMessage(body: Body, seg: Segment, w: World, r: Rendered)
    requires LaneBlock(body, seg, w, r)
    ensures r.message in seg.sources
  {
  }

  lemma SameSegment(body: Body, inputs: Inputs, w: World, choice: Choice, b: Rendered, k': nat, k: nat)
    requires BaseOrigin(body, inputs, w, choice, b, k') && k < |Segments(body)| &&
             b.message in Segments(body)[k].sources
    ensures k == k'
  {
    hide Segments, Live, Fits, Budget.LedgerLadder, Budget.Indices;
    if k != k' { SegmentsAreDisjoint(body, k', k, b.message); }
  }

  lemma DisplacementReleases(body: Body, inputs: Inputs, w: World, choice: Choice, b: Rendered, k: nat)
    requires Intercept(body, inputs, w, choice).Spliced?
    requires b in BaseFor(body, inputs, w, choice).rendered && BaseOrigin(body, inputs, w, choice, b, k)
    requires KeyOf(body, Segments(body)[k], w) in inputs.fastLane
    ensures var o := Intercept(body, inputs, w, choice);
            if inputs.staged.Some? then KeyOf(body, Segments(body)[k], w) in o.uncommitted else o.uncommitted == []
  {
    hide Segments, Live, Fits, Budget.LedgerLadder, Budget.Indices, LaneEntries, Standing, Flatten, Splice, KeptHints,
        CheckPairsAndRoles;
    hide StagedBase, KeyOf;
    var segs := Segments(body);
    if inputs.staged.Some? {
      var live := Live(body, segs, |segs|, inputs.staged.value, choice, w);
      CommittedKeysMembers(body, segs, live, inputs.fastLane, w, KeyOf(body, segs[k], w));
    }
  }

  /** A body whose tool pairs balance is never sent back by the gate's pair or role checks, and an
      interception never changes how many messages go upstream. */
  lemma InterceptPassesPairGate(body: Body, inputs: Inputs, w: World, choice: Choice)
    ensures var lane, b := LaneEntries(body, Segments(body), |Segments(body)|, inputs, w),
            BaseFor(body, inputs, w, choice);
            var spliced := Splice(body, b.rendered + Flatten(Standing(lane, b.rendered)),
                                  KeptHints(b.positions, |body.messages|, w.prefixHints(body)), w.mentionsHint,
                                      w.printer);
            spliced.Ok? && IdsOf(body.messages, ToolUse) == IdsOf(body.messages, ToolResult) ==>
              CheckPairsAndRoles(body, spliced.value) == Pass
    ensures |Egress(body, Intercept(body, inputs, w, choice)).messages| == |body.messages|
  {
    hide Segments, LaneEntries, BaseFor, Standing, Flatten, Splice, KeptHints, IdsOf, CheckPairsAndRoles;
    var lane, b := LaneEntries(body, Segments(body), |Segments(body)|, inputs, w), BaseFor(body, inputs, w, choice);
    var rs, kept := b.rendered + Flatten(Standing(lane, b.rendered)),
        KeptHints(b.positions, |body.messages|, w.prefixHints(body));
    if Splice(body, rs, kept, w.mentionsHint, w.printer).Ok? {
      EverythingFits(body, inputs, w, choice);
      SpliceKeepsPairsAndRoles(body, rs, kept, w.mentionsHint, w.printer);
      SpliceLength(body, rs, kept, w.mentionsHint, w.printer);
    }
  }
}
