/** The over-budget ladder: three passes through the ledger, and the single function they replaced.
    A segment's index is its position, as segmentation numbers them. */
module Budget {
  import opened Basics
  import opened Wire
  import opened Segmentation
  import opened Ledger

  function Max(a: nat, b: nat): nat { if a < b then b else a }

  function SatSub(a: nat, b: nat): nat { if a < b then 0 else a - b }

  function HardTarget(window: nat, maxOutput: nat): nat { Max(256, SatSub(SatSub(window, maxOutput), 1024)) }

  /** The target every pass uses: the window is given as its own maximal output. */
  function Target(body: Body): nat { HardTarget(body.maxTokens, body.maxTokens) }

  /** So the target never depends on the body. */
  lemma TargetIsTheFloor(body: Body)
    ensures Target(body) == 256
  {
  }

  /** The target leaves room for the output and a margin exactly when the window is large enough; else it
      is the floor. */
  lemma TargetLeavesRoomIff(window: nat, maxOutput: nat)
    ensures HardTarget(window, maxOutput) as int == window - maxOutput - 1024 <==> window >= maxOutput + 1280
    ensures HardTarget(window, maxOutput) == 256 <==> window <= maxOutput + 1280
  {
  }

  predicate OverBudget(window: nat, justAdded: nat) { justAdded as real > 0.8 * window as real / 2.0 }

  function TotalTokens(segs: seq<Segment>): nat {
    if segs == [] then 0 else segs[0].tokens + TotalTokens(segs[1..])
  }

  predicate IsReasoning(b: Block) { Kind(b) == Thinking || Kind(b) == RedactedThinking }

  function SourceBlocks(msgs: seq<Message>, sources: seq<nat>): seq<Block> {
    if sources == [] then []
    else (if sources[0] < |msgs| then BlocksOf(msgs[sources[0]].content) else []) + SourceBlocks(msgs, sources[1..])
  }

  predicate HasReasoning(body: Body, seg: Segment) {
    exists b :: b in SourceBlocks(body.messages, seg.sources) && IsReasoning(b)
  }

  function KeptText(bs: seq<Block>): string {
    if bs == [] then "" else (if IsReasoning(bs[0]) then "" else bs[0].raw) + KeptText(bs[1..])
  }

  function ShedTokens(body: Body, seg: Segment): nat {
    SatSub(seg.tokens, EstimateTokens(KeptText(SourceBlocks(body.messages, seg.sources))))
  }

  predicate IsLatestAssistant(segs: seq<Segment>, k: nat)
    requires k < |segs|
  {
    segs[k].kind == AssistantTurn && forall j :: k < j < |segs| ==> segs[j].kind != AssistantTurn
  }

  /** Historical assistant turns that hold reasoning. */
  predicate Strips(body: Body, segs: seq<Segment>, k: nat)
    requires k < |segs|
  {
    segs[k].kind == AssistantTurn && !IsLatestAssistant(segs, k) && HasReasoning(body, segs[k])
  }

  function StripFrom(body: Body, segs: seq<Segment>, k: nat): seq<nat>
    requires k <= |segs|
    decreases |segs| - k
  {
    if k == |segs| then [] else (if Strips(body, segs, k) then [k] else []) + StripFrom(body, segs, k + 1)
  }

  function ShedOf(body: Body, segs: seq<Segment>, indices: seq<nat>): nat {
    if indices == [] then 0
    else (if indices[0] < |segs| then ShedTokens(body, segs[indices[0]]) else 0) + ShedOf(body, segs, indices[1..])
  }

  // ---- the single-function ladder ----

  predicate DropsAsPair(s: Segment) { s.kind == ToolPair && !s.pinned }

  predicate DropsAsOldest(segs: seq<Segment>, k: nat)
    requires k < |segs|
  {
    k != |segs| - 1 && segs[k].kind != SystemKind && segs[k].kind != ToolsKind
  }

  datatype Rung = Rung(dropped: seq<nat>, running: nat)

  /** Rung 2 from segment `k`: oldest unpinned tool pairs while over the target. */
  function PairRung(segs: seq<Segment>, k: nat, running: nat, target: nat): Rung
    requires k <= |segs|
    decreases |segs| - k
  {
    if k == |segs| then Rung([], running)
    else if !DropsAsPair(segs[k]) then PairRung(segs, k + 1, running, target)
    else if running <= target then Rung([], running)
    else
      var rest := PairRung(segs, k + 1, SatSub(running, segs[k].tokens), target);
      Rung([k] + rest.dropped, rest.running)
  }

  /** Rung 3 from segment `k`: oldest droppable segments not dropped as pairs, while over the target. */
  function OldestRung(segs: seq<Segment>, k: nat, running: nat, target: nat, pairs: seq<nat>): Rung
    requires k <= |segs|
    decreases |segs| - k
  {
    if k == |segs| || running <= target then Rung([], running)
    else if !DropsAsOldest(segs, k) || k in pairs then OldestRung(segs, k + 1, running, target, pairs)
    else
      var rest := OldestRung(segs, k + 1, SatSub(running, segs[k].tokens), target, pairs);
      Rung([k] + rest.dropped, rest.running)
  }

  /** `running` is what the ladder believes is left; a segment stripped and then dropped is
      subtracted twice. */
  datatype Compaction = Compaction(strip: seq<nat>, pairs: seq<nat>, oldest: seq<nat>, running: nat)

  function Ladder(body: Body, segs: seq<Segment>, target: nat): Compaction {
    var total := TotalTokens(segs);
    if total <= target then Compaction([], [], [], total)
    else
      var strip := StripFrom(body, segs, 0);
      var rung1 := SatSub(total, ShedOf(body, segs, strip));
      var rung2 := PairRung(segs, 0, rung1, target);
      var rung3 := OldestRung(segs, 0, rung2.running, target, rung2.dropped);
      Compaction(strip, rung2.dropped, rung3.dropped, rung3.running)
  }

  method DefaultCompact(body: Body, segs: seq<Segment>, target: nat) returns (strip: seq<nat>, dropped: seq<nat>)
    ensures strip == Ladder(body, segs, target).strip
    ensures dropped == Ladder(body, segs, target).pairs + Ladder(body, segs, target).oldest
  {
    var running: nat := TotalTokens(segs);
    strip, dropped := [], [];
    if running <= target { return; }
    strip := StripFrom(body, segs, 0);
    running := SatSub(running, ShedOf(body, segs, strip));
    ghost var rung1 := running;
    ghost var rung2 := PairRung(segs, 0, rung1, target);
    ghost var oldest := OldestRung(segs, 0, rung2.running, target, rung2.dropped);
    if running <= target {
      PairRungStopsBelow(segs, 0, running, target);
      return;
    }
    var k := 0;
    while k < |segs|
      invariant k <= |segs|
      invariant Rung(dropped + PairRung(segs, k, running, target).dropped,
                PairRung(segs, k, running, target).running) == rung2
    {
      if DropsAsPair(segs[k]) {
        if running <= target { return; }
        running := SatSub(running, segs[k].tokens);
        ghost var rest := PairRung(segs, k + 1, running, target).dropped;
        assert dropped + ([k] + rest) == (dropped + [k]) + rest;
        dropped := dropped + [k];
      }
      k := k + 1;
    }
    ghost var pairs := dropped;
    assert pairs == rung2.dropped && running == rung2.running;
    k := 0;
    while k < |segs|
      invariant k <= |segs|
      invariant |pairs| <= |dropped| && dropped[..|pairs|] == pairs
      invariant forall j :: |pairs| <= j < |dropped| ==> dropped[j] < k
      invariant dropped + OldestRung(segs, k, running, target, pairs).dropped == pairs + oldest.dropped
    {
      if running <= target { break; }
      assert k in dropped <==> k in pairs;
      if DropsAsOldest(segs, k) && k !in dropped {
        running := SatSub(running, segs[k].tokens);
        ghost var rest := OldestRung(segs, k + 1, running, target, pairs).dropped;
        assert dropped + ([k] + rest) == (dropped + [k]) + rest;
        dropped := dropped + [k];
      }
      k := k + 1;
    }
  }

  lemma {:induction false} PairRungStopsBelow(segs: seq<Segment>, k: nat, running: nat, target: nat)
    requires k <= |segs| && running <= target
    ensures PairRung(segs, k, running, target) == Rung([], running)
    decreases |segs| - k
  {
    if k < |segs| { PairRungStopsBelow(segs, k + 1, running, target); }
  }

  // ---- the three passes ----

  function DropProposal(index: nat, removed: nat, author: string): Proposal {
    Proposal(index, Drop, None, None, removed as int, author)
  }

  function RemovedSoFar(ps: seq<Proposal>): nat {
    if ps == [] then 0 else (if ps[0].netRemoved > 0 then ps[0].netRemoved else 0) + RemovedSoFar(ps[1..])
  }

  predicate DroppedAsPair(ps: seq<Proposal>, k: nat) {
    Find(ps, k).Some? && Find(ps, k).value.author == "drop_tool_pairs"
  }

  function StripPass(body: Body, segs: seq<Segment>, indices: seq<nat>, ps: seq<Proposal>): seq<Proposal> {
    if indices == [] then ps
    else
      var shed := if indices[0] < |segs| then ShedTokens(body, segs[indices[0]]) else 0;
      StripPass(body, segs, indices[1..], Upsert(ps, DropProposal(indices[0], shed, "strip_reasoning")))
  }

  function PairsPass(segs: seq<Segment>, k: nat, running: nat, target: nat, ps: seq<Proposal>): seq<Proposal>
    requires k <= |segs|
    decreases |segs| - k
  {
    if k == |segs| then ps
    else if !DropsAsPair(segs[k]) then PairsPass(segs, k + 1, running, target, ps)
    else if running <= target then ps
    else
      PairsPass(segs, k + 1, SatSub(running, segs[k].tokens), target,
                Upsert(ps, DropProposal(k, segs[k].tokens, "drop_tool_pairs")))
  }

  function OldestPass(segs: seq<Segment>, k: nat, running: nat, target: nat, ps: seq<Proposal>): seq<Proposal>
    requires k <= |segs|
    decreases |segs| - k
  {
    if k == |segs| || running <= target then ps
    else if !DropsAsOldest(segs, k) || DroppedAsPair(ps, k) then OldestPass(segs, k + 1, running, target, ps)
    else
      OldestPass(segs, k + 1, SatSub(running, segs[k].tokens), target,
                 Upsert(ps, DropProposal(k, segs[k].tokens, "drop_oldest")))
  }

  /** The proposals of the three passes run one after the other on an empty ledger. */
  function LedgerLadder(body: Body, segs: seq<Segment>, target: nat): seq<Proposal> {
    var total := TotalTokens(segs);
    if total <= target then []
    else
      var ps1 := StripPass(body, segs, StripFrom(body, segs, 0), []);
      var ps2 := PairsPass(segs, 0, SatSub(total, RemovedSoFar(ps1)), target, ps1);
      OldestPass(segs, 0, SatSub(total, RemovedSoFar(ps2)), target, ps2)
  }

  method ApplyStripReasoning(body: Body, segs: seq<Segment>, target: nat, ledger: PlanLedger)
    modifies ledger`proposals
    ensures ledger.proposals ==
            if TotalTokens(segs) <= target then old(ledger.proposals)
            else StripPass(body, segs, StripFrom(body, segs, 0), old(ledger.proposals))
  {
    if TotalTokens(segs) <= target { return; }
    var indices := StripFrom(body, segs, 0);
    var j := 0;
    while j < |indices|
      invariant j <= |indices|
      invariant StripPass(body, segs, indices[j..], ledger.proposals) ==
                StripPass(body, segs, indices, old(ledger.proposals))
    {
      hide ShedTokens, StripFrom;
      assert indices[j..][1..] == indices[j + 1..];
      var shed := if indices[j] < |segs| then ShedTokens(body, segs[indices[j]]) else 0;
      ledger.UpsertProposal(DropProposal(indices[j], shed, "strip_reasoning"));
      j := j + 1;
    }
  }

  method ApplyDropToolPairs(segs: seq<Segment>, target: nat, ledger: PlanLedger)
    modifies ledger`proposals
    ensures ledger.proposals ==
            if TotalTokens(segs) <= target then old(ledger.proposals)
            else PairsPass(segs, 0, SatSub(TotalTokens(segs), RemovedSoFar(old(ledger.proposals))), target,
                old(ledger.proposals))
  {
    if TotalTokens(segs) <= target { return; }
    var running: nat := SatSub(TotalTokens(segs), RemovedSoFar(ledger.proposals));
    ghost var all := PairsPass(segs, 0, running, target, ledger.proposals);
    var k := 0;
    while k < |segs|
      invariant k <= |segs|
      invariant PairsPass(segs, k, running, target, ledger.proposals) == all
    {
      if DropsAsPair(segs[k]) {
        if running <= target { return; }
        running := SatSub(running, segs[k].tokens);
        ledger.UpsertProposal(DropProposal(k, segs[k].tokens, "drop_tool_pairs"));
      }
      k := k + 1;
    }
  }

  method ApplyDropOldest(segs: seq<Segment>, target: nat, ledger: PlanLedger)
    modifies ledger`proposals
    ensures ledger.proposals ==
            if TotalTokens(segs) <= target then old(ledger.proposals)
            else OldestPass(segs, 0, SatSub(TotalTokens(segs), RemovedSoFar(old(ledger.proposals))), target,
                old(ledger.proposals))
  {
    if TotalTokens(segs) <= target { return; }
    var running: nat := SatSub(TotalTokens(segs), RemovedSoFar(ledger.proposals));
    ghost var all := OldestPass(segs, 0, running, target, ledger.proposals);
    var k := 0;
    while k < |segs|
      invariant k <= |segs|
      invariant OldestPass(segs, k, running, target, ledger.proposals) == all
    {
      if running <= target { break; }
      if DropsAsOldest(segs, k) && !DroppedAsPair(ledger.proposals, k) {
        running := SatSub(running, segs[k].tokens);
        ledger.UpsertProposal(DropProposal(k, segs[k].tokens, "drop_oldest"));
      }
      k := k + 1;
    }
  }

  method RunLadder(body: Body, segs: seq<Segment>, target: nat, ledger: PlanLedger)
    requires ledger.proposals == []
    modifies ledger`proposals
    ensures ledger.proposals == LedgerLadder(body, segs, target)
  {
    ApplyStripReasoning(body, segs, target, ledger);
    ApplyDropToolPairs(segs, target, ledger);
    ApplyDropOldest(segs, target, ledger);
  }

  // ---- the passes choose what the single function chooses ----

  function Indices(ps: seq<Proposal>): set<nat> { set p | p in ps :: p.segIndex }

  function ToSet(s: seq<nat>): set<nat> { set k | k in s }

  lemma IndicesAfterUpsert(ps: seq<Proposal>, p: Proposal)
    ensures Indices(Upsert(ps, p)) == Indices(ps) + {p.segIndex}
  {
    var ps', k := Upsert(ps, p), Position(ps, p.segIndex);
    assert ps'[k] == p;
    forall i | i in Indices(ps) ensures i in Indices(ps') {
      var j :| 0 <= j < |ps| && ps[j].segIndex == i;
      assert ps'[j] in ps' && ps'[j].segIndex == i;
    }
    assert p in ps';
  }

  lemma AbsentPosition(ps: seq<Proposal>, k: nat)
    ensures Position(ps, k) == |ps| <==> k !in Indices(ps)
  {
    PositionIsFirst(ps, k);
    if Position(ps, k) == |ps| {
      forall p | p in ps ensures p.segIndex != k {
        var j :| 0 <= j < |ps| && ps[j] == p;
      }
    } else {
      assert ps[Position(ps, k)] in ps;
    }
  }

  lemma {:induction false} RemovedOfAppend(ps: seq<Proposal>, p: Proposal)
    ensures RemovedSoFar(ps + [p]) == RemovedSoFar(ps) + if p.netRemoved > 0 then p.netRemoved else 0
  {
    if ps == [] {
      assert ps + [p] == [p];
    } else {
      assert (ps + [p])[1..] == ps[1..] + [p];
      RemovedOfAppend(ps[1..], p);
    }
  }

  lemma RemovedOfFreshUpsert(ps: seq<Proposal>, k: nat, removed: nat, author: string)
    requires k !in Indices(ps)
    ensures RemovedSoFar(Upsert(ps, DropProposal(k, removed, author))) == RemovedSoFar(ps) + removed
  {
    AbsentPosition(ps, k);
    RemovedOfAppend(ps, DropProposal(k, removed, author));
  }

  ghost predicate Increasing(s: seq<nat>) { forall i, j :: 0 <= i < j < |s| ==> s[i] < s[j] }

  lemma {:induction false} StripFromIsOrdered(body: Body, segs: seq<Segment>, k: nat)
    requires k <= |segs|
    ensures var s := StripFrom(body, segs, k);
            Increasing(s) && forall i :: 0 <= i < |s| ==> k <= s[i] < |segs| && segs[s[i]].kind == AssistantTurn
    decreases |segs| - k
  {
    hide HasReasoning;
    if k < |segs| { StripFromIsOrdered(body, segs, k + 1); }
  }

  lemma {:induction false} StripPassProposes(body: Body, segs: seq<Segment>, indices: seq<nat>, ps: seq<Proposal>)
    requires Increasing(indices) && forall i :: 0 <= i < |indices| ==> indices[i] !in Indices(ps)
    ensures Indices(StripPass(body, segs, indices, ps)) == Indices(ps) + ToSet(indices)
    ensures RemovedSoFar(StripPass(body, segs, indices, ps)) == RemovedSoFar(ps) + ShedOf(body, segs, indices)
  {
    hide ShedTokens, Indices, Upsert;
    if indices != [] {
      var shed := if indices[0] < |segs| then ShedTokens(body, segs[indices[0]]) else 0;
      var p := DropProposal(indices[0], shed, "strip_reasoning");
      IndicesAfterUpsert(ps, p);
      RemovedOfFreshUpsert(ps, indices[0], shed, "strip_reasoning");
      StripPassProposes(body, segs, indices[1..], Upsert(ps, p));
      assert ToSet(indices) == {indices[0]} + ToSet(indices[1..]);
    }
  }

  lemma {:induction false} StripPassAuthors(
    body: Body, segs: seq<Segment>, indices: seq<nat>, ps: seq<Proposal>, k: nat)
    requires !DroppedAsPair(ps, k)
    ensures !DroppedAsPair(StripPass(body, segs, indices, ps), k)
  {
    hide ShedTokens, Upsert, Find;
    if indices != [] {
      var shed := if indices[0] < |segs| then ShedTokens(body, segs[indices[0]]) else 0;
      var p := DropProposal(indices[0], shed, "strip_reasoning");
      FindAfterUpsert(ps, p, k);
      StripPassAuthors(body, segs, indices[1..], Upsert(ps, p), k);
    }
  }

  /** Rung 2 through the ledger: the same drops, and `running` stays the total less what the
      ledger removes, which is what the next pass starts from. */
  lemma {:induction false} PairsPassProposes(segs: seq<Segment>, k: nat, total: nat, target: nat, ps: seq<Proposal>)
    requires k <= |segs|
    requires forall i :: k <= i < |segs| && DropsAsPair(segs[i]) ==> i !in Indices(ps)
    ensures var running := SatSub(total, RemovedSoFar(ps));
            var rung, ps' := PairRung(segs, k, running, target), PairsPass(segs, k, running, target, ps);
            Indices(ps') == Indices(ps) + ToSet(rung.dropped) && SatSub(total, RemovedSoFar(ps')) == rung.running
    decreases |segs| - k
  {
    hide Indices, Upsert;
    var running := SatSub(total, RemovedSoFar(ps));
    if k == |segs| || (DropsAsPair(segs[k]) && running <= target) {
      assert ToSet([]) == {};
    } else if !DropsAsPair(segs[k]) {
      PairsPassProposes(segs, k + 1, total, target, ps);
    } else {
      var p := DropProposal(k, segs[k].tokens, "drop_tool_pairs");
      IndicesAfterUpsert(ps, p);
      RemovedOfFreshUpsert(ps, k, segs[k].tokens, "drop_tool_pairs");
      PairsPassProposes(segs, k + 1, total, target, Upsert(ps, p));
      var rest := PairRung(segs, k + 1, SatSub(running, segs[k].tokens), target).dropped;
      assert ([k] + rest)[1..] == rest;
      assert ToSet([k] + rest) == {k} + ToSet(rest);
    }
  }

  lemma {:induction false} PairsPassAuthors(
    segs: seq<Segment>, k: nat, running: nat, target: nat, ps: seq<Proposal>, i: nat)
    requires k <= |segs|
    ensures DroppedAsPair(PairsPass(segs, k, running, target, ps), i) <==>
            DroppedAsPair(ps, i) || i in PairRung(segs, k, running, target).dropped
    decreases |segs| - k
  {
    hide Upsert, Find;
    if k < |segs| {
      if !DropsAsPair(segs[k]) {
        PairsPassAuthors(segs, k + 1, running, target, ps, i);
      } else if running > target {
        var p := DropProposal(k, segs[k].tokens, "drop_tool_pairs");
        FindAfterUpsert(ps, p, i);
        PairsPassAuthors(segs, k + 1, SatSub(running, segs[k].tokens), target, Upsert(ps, p), i);
      }
    }
  }

  lemma {:induction false} OldestPassProposes(
    segs: seq<Segment>, k: nat, running: nat, target: nat, ps: seq<Proposal>, pairs: seq<nat>)
    requires k <= |segs|
    requires forall i :: k <= i < |segs| ==> (DroppedAsPair(ps, i) <==> i in pairs)
    ensures Indices(OldestPass(segs, k, running, target, ps)) ==
            Indices(ps) + ToSet(OldestRung(segs, k, running, target, pairs).dropped)
    decreases |segs| - k
  {
    hide Indices, Upsert, Find;
    if k == |segs| || running <= target {
      assert ToSet([]) == {};
    } else if !DropsAsOldest(segs, k) || k in pairs {
      OldestPassProposes(segs, k + 1, running, target, ps, pairs);
    } else {
      var p := DropProposal(k, segs[k].tokens, "drop_oldest");
      IndicesAfterUpsert(ps, p);
      forall i | k < i < |segs| ensures DroppedAsPair(Upsert(ps, p), i) <==> i in pairs { FindAfterUpsert(ps, p, i); }
      OldestPassProposes(segs, k + 1, SatSub(running, segs[k].tokens), target, Upsert(ps, p), pairs);
      var rest := OldestRung(segs, k + 1, SatSub(running, segs[k].tokens), target, pairs).dropped;
      assert ToSet([k] + rest) == {k} + ToSet(rest);
    }
  }

  lemma EmptyLedger(k: nat)
    ensures Indices([]) == {} && RemovedSoFar([]) == 0 && !DroppedAsPair([], k)
  {
  }

  lemma StripsAreNotPairs(body: Body, segs: seq<Segment>)
    ensures forall i :: 0 <= i < |segs| && DropsAsPair(segs[i]) ==> i !in ToSet(StripFrom(body, segs, 0))
  {
    hide StripFrom;
    StripFromIsOrdered(body, segs, 0);
  }

  /** For every body, the ledger's passes propose exactly the segments the single function strips
      or drops. */
  lemma LadderThroughLedger(body: Body, segs: seq<Segment>, target: nat)
    ensures var plan := Ladder(body, segs, target);
            Indices(LedgerLadder(body, segs, target)) == ToSet(plan.strip) + ToSet(plan.pairs) + ToSet(plan.oldest)
  {
    hide Indices, Find, StripFrom, ShedOf;
    EmptyLedger(0);
    var total := TotalTokens(segs);
    if total > target {
      var strip := StripFrom(body, segs, 0);
      StripFromIsOrdered(body, segs, 0);
      StripPassProposes(body, segs, strip, []);
      var ps1 := StripPass(body, segs, strip, []);
      var running := SatSub(total, RemovedSoFar(ps1));
      assert Indices(ps1) == ToSet(strip);
      StripsAreNotPairs(body, segs);
      hide ToSet, DropsAsPair, StripPass;
      PairsPassProposes(segs, 0, total, target, ps1);
      var ps2, rung2 := PairsPass(segs, 0, running, target, ps1), PairRung(segs, 0, running, target);
      forall i | 0 <= i < |segs| ensures DroppedAsPair(ps2, i) <==> i in rung2.dropped {
        EmptyLedger(i);
        StripPassAuthors(body, segs, strip, [], i);
        PairsPassAuthors(segs, 0, running, target, ps1, i);
      }
      OldestPassProposes(segs, 0, rung2.running, target, ps2, rung2.dropped);
    }
  }

  // ---- what the ladder achieves ----

  /** What the ladder believes is left after some drops. */
  function RunningAfter(segs: seq<Segment>, running: nat, dropped: seq<nat>): nat {
    if dropped == [] then running
    else RunningAfter(segs, if dropped[0] < |segs| then SatSub(running, segs[dropped[0]].tokens)
        else running, dropped[1..])
  }

  function PairSet(segs: seq<Segment>): set<nat> { set k | 0 <= k < |segs| && DropsAsPair(segs[k]) }

  function OldestSet(segs: seq<Segment>, pairs: seq<nat>): set<nat> {
    set k | 0 <= k < |segs| && DropsAsOldest(segs, k) && k !in pairs
  }

  /** A rung drops in order, each time because it is still over the target, and ends at the
      target or out of candidates. */
  ghost predicate Greedy(segs: seq<Segment>, from: nat, running: nat, target: nat, rung: Rung, candidates: set<nat>) {
    Increasing(rung.dropped) &&
    (forall j :: 0 <= j < |rung.dropped| ==> from <= rung.dropped[j] < |segs| && rung.dropped[j] in candidates) &&
    (forall j :: 0 <= j < |rung.dropped| ==> RunningAfter(segs, running, rung.dropped[..j]) > target) &&
    rung.running == RunningAfter(segs, running, rung.dropped) &&
    (rung.running <= target || forall k :: from <= k < |segs| && k in candidates ==> k in rung.dropped)
  }

  lemma GreedyCons(segs: seq<Segment>, k: nat, running: nat, target: nat, rest: Rung, candidates: set<nat>)
    requires k < |segs| && running > target && k in candidates
    requires Greedy(segs, k + 1, SatSub(running, segs[k].tokens), target, rest, candidates)
    ensures Greedy(segs, k, running, target, Rung([k] + rest.dropped, rest.running), candidates)
  {
    var d := [k] + rest.dropped;
    assert d[1..] == rest.dropped;
    forall j | 0 <= j < |d| ensures RunningAfter(segs, running, d[..j]) > target {
      if j > 0 { assert d[..j][1..] == rest.dropped[..j - 1]; }
    }
  }

  lemma {:induction false} PairRungIsGreedy(segs: seq<Segment>, k: nat, running: nat, target: nat, candidates: set<nat>)
    requires k <= |segs|
    requires candidates == PairSet(segs)
    ensures Greedy(segs, k, running, target, PairRung(segs, k, running, target), candidates)
    decreases |segs| - k
  {
    if k < |segs| && !DropsAsPair(segs[k]) {
      PairRungIsGreedy(segs, k + 1, running, target, candidates);
    } else if k < |segs| && running > target {
      PairRungIsGreedy(segs, k + 1, SatSub(running, segs[k].tokens), target, candidates);
      GreedyCons(segs, k, running, target, PairRung(segs, k + 1, SatSub(running, segs[k].tokens), target), candidates);
    }
  }

  lemma {:induction false} OldestRungIsGreedy(
    segs: seq<Segment>, k: nat, running: nat, target: nat, pairs: seq<nat>, candidates: set<nat>)
    requires k <= |segs|
    requires candidates == OldestSet(segs, pairs)
    ensures Greedy(segs, k, running, target, OldestRung(segs, k, running, target, pairs), candidates)
    decreases |segs| - k
  {
    if k < |segs| && running > target {
      if k !in candidates {
        OldestRungIsGreedy(segs, k + 1, running, target, pairs, candidates);
      } else {
        OldestRungIsGreedy(segs, k + 1, SatSub(running, segs[k].tokens), target, pairs, candidates);
        GreedyCons(segs, k, running, target, OldestRung(segs, k + 1, SatSub(running, segs[k].tokens), target, pairs),
            candidates);
      }
    }
  }

  /** The ladder drops nothing once `running` is at the target, drops oldest first in each rung,
      and ends at the target or with every droppable segment dropped. */
  lemma LadderIsGreedy(body: Body, segs: seq<Segment>, target: nat)
    requires TotalTokens(segs) > target
    ensures var plan := Ladder(body, segs, target);
            var rung1 := SatSub(TotalTokens(segs), ShedOf(body, segs, plan.strip));
            var rung2 := RunningAfter(segs, rung1, plan.pairs);
            Greedy(segs, 0, rung1, target, Rung(plan.pairs, rung2), PairSet(segs)) &&
            Greedy(segs, 0, rung2, target, Rung(plan.oldest, plan.running), OldestSet(segs, plan.pairs)) &&
            (plan.running <= target ||
             forall k :: k in PairSet(segs) + OldestSet(segs, []) ==> k in plan.pairs + plan.oldest)
  {
    var plan := Ladder(body, segs, target);
    var rung1 := SatSub(TotalTokens(segs), ShedOf(body, segs, plan.strip));
    PairRungIsGreedy(segs, 0, rung1, target, PairSet(segs));
    var rung2 := PairRung(segs, 0, rung1, target);
    OldestRungIsGreedy(segs, 0, rung2.running, target, plan.pairs, OldestSet(segs, plan.pairs));
    hide Greedy;
    if plan.running > target { AllDropped(segs, rung1, rung2, target, plan.oldest, plan.running); }
  }

  lemma AllDropped(segs: seq<Segment>, running: nat, rung2: Rung, target: nat, oldest: seq<nat>, final: nat)
    requires Greedy(segs, 0, running, target, rung2, PairSet(segs))
    requires Greedy(segs, 0, rung2.running, target, Rung(oldest, final), OldestSet(segs, rung2.dropped))
    requires final > target
    ensures forall k :: k in PairSet(segs) + OldestSet(segs, []) ==> k in rung2.dropped + oldest
  {
    assert rung2.running > target by {
      assert oldest != [] ==> RunningAfter(segs, rung2.running, oldest[..0]) > target;
    }
  }
}
