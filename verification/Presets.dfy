/** The pipelines the proxy runs, as stages of the runner: each is the function its passes compute, and
    each keeps at most one proposal per segment at every stage. */
module Presets {
  import opened Basics
  import opened Wire
  import opened Segmentation
  import opened Ledger
  import opened Runner
  import Recode
  import RecodeChain
  import SeqDiff
  import Budget
  import Ladder

  /** A pass that only answers to go on. */
  function StageOf(step: Plan -> Plan): Stage { Stage.Pass((plan: Plan) => (step(plan), Continue)) }

  /** A pass that only rewrites the proposals. */
  function Rewriting(step: seq<Proposal> -> seq<Proposal>): Stage {
    StageOf((plan: Plan) => plan.(proposals := step(plan.proposals)))
  }

  // ---- which rewrites are made of upserts ----

  function UpsertAll(ps: seq<Proposal>, qs: seq<Proposal>): seq<Proposal>
    decreases |qs|
  {
    if qs == [] then ps else UpsertAll(Upsert(ps, qs[0]), qs[1..])
  }

  ghost predicate Upserted(ps: seq<Proposal>, ps': seq<Proposal>) { exists qs :: ps' == UpsertAll(ps, qs) }

  lemma {:induction false} UpsertAllConcat(ps: seq<Proposal>, a: seq<Proposal>, b: seq<Proposal>)
    ensures UpsertAll(ps, a + b) == UpsertAll(UpsertAll(ps, a), b)
    decreases |a|
  {
    if a == [] {
      assert a + b == b;
    } else {
      assert (a + b)[1..] == a[1..] + b;
      UpsertAllConcat(Upsert(ps, a[0]), a[1..], b);
    }
  }

  lemma UpsertedNothing(ps: seq<Proposal>)
    ensures Upserted(ps, ps)
  {
    assert ps == UpsertAll(ps, []);
  }

  lemma UpsertedOne(ps: seq<Proposal>, p: Proposal)
    ensures Upserted(ps, Upsert(ps, p))
  {
    assert UpsertAll(Upsert(ps, p), []) == Upsert(ps, p);
    assert Upsert(ps, p) == UpsertAll(ps, [p]);
  }

  lemma UpsertedTrans(a: seq<Proposal>, b: seq<Proposal>, c: seq<Proposal>)
    requires Upserted(a, b) && Upserted(b, c)
    ensures Upserted(a, c)
  {
    var qs :| b == UpsertAll(a, qs);
    var qs' :| c == UpsertAll(b, qs');
    UpsertAllConcat(a, qs, qs');
  }

  lemma UpsertedThenOne(a: seq<Proposal>, b: seq<Proposal>, p: Proposal)
    requires Upserted(a, b)
    ensures Upserted(a, Upsert(b, p))
  {
    UpsertedOne(b, p);
    UpsertedTrans(a, b, Upsert(b, p));
  }

  lemma {:induction false} UpsertsReach(plan: Plan, qs: seq<Proposal>)
    ensures Reachable(plan, plan.(proposals := UpsertAll(plan.proposals, qs)))
    decreases |qs|
  {
    ReachRefl(plan);
    if qs != [] {
      ReachUpsert(plan, plan, qs[0]);
      var next := plan.(proposals := Upsert(plan.proposals, qs[0]));
      UpsertsReach(next, qs[1..]);
      ReachTrans(plan, next, next.(proposals := UpsertAll(next.proposals, qs[1..])));
    }
  }

  lemma UpsertedReaches(plan: Plan, ps': seq<Proposal>)
    requires Upserted(plan.proposals, ps')
    ensures Reachable(plan, plan.(proposals := ps'))
  {
    var qs :| ps' == UpsertAll(plan.proposals, qs);
    UpsertsReach(plan, qs);
  }

  // ---- the passes ----

  lemma {:induction false} RecodeUpserts(body: Body, segs: seq<Segment>, t: Recode.Transform, ps: seq<Proposal>)
    ensures Upserted(ps, Recode.RecodeAll(body, segs, t, ps))
  {
    hide Recode.LeafFrom, Recode.Propose, Upserted;
    UpsertedNothing(ps);
    if segs != [] {
      var slot := Find(ps, segs[0].index);
      var slot' := Recode.SlotStep(body, segs[0], t, slot);
      if slot' != slot { UpsertedOne(ps, slot'.value); }
      var ps' := Recode.RecodeOne(body, segs[0], t, ps);
      RecodeUpserts(body, segs[1..], t, ps');
      UpsertedTrans(ps, ps', Recode.RecodeAll(body, segs[1..], t, ps'));
    }
  }

  lemma {:induction false} DedupUpserts(body: Body, segs: seq<Segment>, ps: seq<Proposal>, n: nat)
    requires n <= |segs|
    ensures Upserted(ps, RecodeChain.DedupTo(body, segs, ps, n).proposals)
  {
    hide RecodeChain.DedupKey, Upserted;
    UpsertedNothing(ps);
    if n > 0 {
      DedupUpserts(body, segs, ps, n - 1);
      var st, key := RecodeChain.DedupTo(body, segs, ps, n - 1), RecodeChain.DedupKey(body, segs[n - 1]);
      if key.Some? { UpsertedThenOne(ps, st.proposals, RecodeChain.DedupProposal(segs[n - 1], key.value)); }
    }
  }

  lemma {:induction false} DiffUpserts(
    body: Body, segs: seq<Segment>, render: SeqDiff.Render, ps: seq<Proposal>, n: nat)
    requires n <= |segs|
    ensures Upserted(ps, SeqDiff.RunTo(body, segs, render, ps, n).proposals)
  {
    hide Upserted, SeqDiff.ResolveTool, SeqDiff.Diffable;
    UpsertedNothing(ps);
    if n > 0 {
      DiffUpserts(body, segs, render, ps, n - 1);
      DiffStepUpserts(body, segs, render, n - 1, SeqDiff.RunTo(body, segs, render, ps, n - 1));
      UpsertedTrans(ps, SeqDiff.RunTo(body, segs, render, ps, n - 1).proposals,
          SeqDiff.RunTo(body, segs, render, ps, n).proposals);
    }
  }

  lemma DiffStepUpserts(body: Body, segs: seq<Segment>, render: SeqDiff.Render, k: nat, st: SeqDiff.State)
    requires k < |segs|
    ensures Upserted(st.proposals, SeqDiff.StepAt(body, segs, render, k, st).proposals)
  {
    hide Upserted, SeqDiff.ResolveTool, SeqDiff.Diffable, Recode.LeafFrom;
    UpsertedNothing(st.proposals);
    var seg := segs[k];
    var leaf, tool := Recode.LeafFrom(body, seg, Find(st.proposals, seg.index)), SeqDiff.ResolveTool(body, seg);
    if leaf.Some? && tool.Some? && tool.value.name in st.last {
      var p := SeqDiff.DiffProposal(body, segs, render, seg, leaf.value, st.last[tool.value.name], tool.value.name);
      hide SeqDiff.DiffProposal;
      if p.Some? { UpsertedOne(st.proposals, p.value); }
    }
  }

  lemma ChainPassUpserts(body: Body, segs: seq<Segment>, pass: RecodeChain.ChainPass, ps: seq<Proposal>)
    ensures Upserted(ps, RecodeChain.PassAll(body, segs, pass, ps))
  {
    hide Upserted;
    match pass {
      case RecodePass(t) => RecodeUpserts(body, segs, t, ps);
      case DedupPass => DedupUpserts(body, segs, ps, |segs|);
      case DiffPass(render) => DiffUpserts(body, segs, render, ps, |segs|);
    }
  }

  lemma {:induction false} StripUpserts(body: Body, segs: seq<Segment>, indices: seq<nat>, ps: seq<Proposal>)
    ensures Upserted(ps, Budget.StripPass(body, segs, indices, ps))
    decreases |indices|
  {
    hide Upserted, Budget.ShedTokens;
    UpsertedNothing(ps);
    if indices != [] {
      var shed := if indices[0] < |segs| then Budget.ShedTokens(body, segs[indices[0]]) else 0;
      var p := Budget.DropProposal(indices[0], shed, "strip_reasoning");
      UpsertedOne(ps, p);
      StripUpserts(body, segs, indices[1..], Upsert(ps, p));
      UpsertedTrans(ps, Upsert(ps, p), Budget.StripPass(body, segs, indices[1..], Upsert(ps, p)));
    }
  }

  lemma {:induction false} PairsUpserts(segs: seq<Segment>, k: nat, running: nat, target: nat, ps: seq<Proposal>)
    requires k <= |segs|
    ensures Upserted(ps, Budget.PairsPass(segs, k, running, target, ps))
    decreases |segs| - k
  {
    hide Upserted;
    UpsertedNothing(ps);
    if k < |segs| {
      if !Budget.DropsAsPair(segs[k]) {
        PairsUpserts(segs, k + 1, running, target, ps);
      } else if running > target {
        var p := Budget.DropProposal(k, segs[k].tokens, "drop_tool_pairs");
        var rest := Budget.SatSub(running, segs[k].tokens);
        UpsertedOne(ps, p);
        PairsUpserts(segs, k + 1, rest, target, Upsert(ps, p));
        UpsertedTrans(ps, Upsert(ps, p), Budget.PairsPass(segs, k + 1, rest, target, Upsert(ps, p)));
      }
    }
  }

  lemma {:induction false} OldestUpserts(segs: seq<Segment>, k: nat, running: nat, target: nat, ps: seq<Proposal>)
    requires k <= |segs|
    ensures Upserted(ps, Budget.OldestPass(segs, k, running, target, ps))
    decreases |segs| - k
  {
    hide Upserted;
    UpsertedNothing(ps);
    if k < |segs| && running > target {
      if !Budget.DropsAsOldest(segs, k) || Budget.DroppedAsPair(ps, k) {
        OldestUpserts(segs, k + 1, running, target, ps);
      } else {
        var p := Budget.DropProposal(k, segs[k].tokens, "drop_oldest");
        var rest := Budget.SatSub(running, segs[k].tokens);
        UpsertedOne(ps, p);
        OldestUpserts(segs, k + 1, rest, target, Upsert(ps, p));
        UpsertedTrans(ps, Upsert(ps, p), Budget.OldestPass(segs, k + 1, rest, target, Upsert(ps, p)));
      }
    }
  }

  lemma {:induction false} LadderUpserts(
    ctx: Ladder.Ctx, barred: nat -> bool, ordered: seq<Ladder.Staged>, ps: seq<Proposal>)
    ensures Upserted(ps, Ladder.LadderAll(ctx, barred, ordered, ps))
  {
    hide Upserted, Ladder.LadderChoice;
    UpsertedNothing(ps);
    if ordered != [] {
      var init, s := ordered[..|ordered| - 1], ordered[|ordered| - 1];
      LadderUpserts(ctx, barred, init, ps);
      if Ladder.Considered(ctx, barred, s) {
        var strategy := Ladder.LadderChoice(ctx.segments[s.segIndex], s, ctx.knobs);
        if strategy != Keep {
          UpsertedThenOne(ps, Ladder.LadderAll(ctx, barred, init, ps), Ladder.ProposalOf(s, strategy));
        }
      }
    }
  }

  lemma {:induction false} ScoresReach(ctx: Ladder.Ctx, n: nat, plan: Plan)
    requires n <= |ctx.segments|
    ensures Reachable(plan, plan.(scores := Ladder.ScoreTo(ctx, n, plan.scores)))
  {
    ReachRefl(plan);
    if n > 0 {
      ScoresReach(ctx, n - 1, plan);
      var i := ctx.segments[n - 1].index;
      ReachStep(plan, plan.(scores := Ladder.ScoreTo(ctx, n - 1, plan.scores)), DoScore(i, ctx.score(i)));
    }
  }

  // ---- the presets ----

  datatype Preset =
    | Deterministic(body: Body, segs: seq<Segment>, passes: seq<RecodeChain.ChainPass>)
    | Continuous(ctx: Ladder.Ctx)
    | BudgetFallback(body: Body, segs: seq<Segment>, target: nat)
    | Identity

  function ChainStage(body: Body, segs: seq<Segment>, pass: RecodeChain.ChainPass): Stage {
    Rewriting((ps: seq<Proposal>) => RecodeChain.PassAll(body, segs, pass, ps))
  }

  /** A rung does nothing when the body is within the target. */
  function StripRung(body: Body, segs: seq<Segment>, target: nat, ps: seq<Proposal>): seq<Proposal> {
    if Budget.TotalTokens(segs) <= target then ps else Budget.StripPass(body, segs, Budget.StripFrom(body, segs, 0), ps)
  }

  function PairsRung(segs: seq<Segment>, target: nat, ps: seq<Proposal>): seq<Proposal> {
    var total := Budget.TotalTokens(segs);
    if total <= target then ps
    else Budget.PairsPass(segs, 0, Budget.SatSub(total, Budget.RemovedSoFar(ps)), target, ps)
  }

  function OldestRung(segs: seq<Segment>, target: nat, ps: seq<Proposal>): seq<Proposal> {
    var total := Budget.TotalTokens(segs);
    if total <= target then ps
    else Budget.OldestPass(segs, 0, Budget.SatSub(total, Budget.RemovedSoFar(ps)), target, ps)
  }

  function Stages(p: Preset): seq<Stage> {
    match p
    case Deterministic(body, segs, passes) =>
      seq(|passes|, k requires 0 <= k < |passes| => ChainStage(body, segs, passes[k]))
    case Continuous(ctx) =>
      [StageOf((plan: Plan) => Ladder.SaliencePass(ctx, plan)), StageOf((plan: Plan) => Ladder.ScorePass(ctx, plan)),
       StageOf((plan: Plan) => Ladder.LadderPass(ctx, plan)), StageOf((plan: Plan) => Ladder.GatePass(ctx, plan)),
       StageOf((plan: Plan) => Ladder.CoolPass(ctx, plan))]
    case BudgetFallback(body, segs, target) =>
      [Rewriting((ps: seq<Proposal>) => StripRung(body, segs, target, ps)),
       Rewriting((ps: seq<Proposal>) => PairsRung(segs, target, ps)),
       Rewriting((ps: seq<Proposal>) => OldestRung(segs, target, ps))]
    case Identity => []
  }

  lemma UpsertsAreDisciplined(step: seq<Proposal> -> seq<Proposal>)
    requires forall ps :: Upserted(ps, step(ps))
    ensures Rewriting(step).Pass? && Disciplined(Rewriting(step).apply)
  {
    forall plan: Plan ensures Reachable(plan, Rewriting(step).apply(plan).0) {
      UpsertedReaches(plan, step(plan.proposals));
    }
  }

  lemma SpineStagesAreDisciplined(ctx: Ladder.Ctx, k: nat)
    requires k < 5
    ensures Disciplined(Stages(Continuous(ctx))[k].apply)
  {
    forall plan: Plan ensures Reachable(plan, Stages(Continuous(ctx))[k].apply(plan).0) {
      SpineStageReaches(ctx, plan, k);
    }
  }

  lemma SpineStageReaches(ctx: Ladder.Ctx, plan: Plan, k: nat)
    requires k < 5
    ensures Reachable(plan, Stages(Continuous(ctx))[k].apply(plan).0)
  {
    hide Reachable;
    ReachRefl(plan);
    if k == 0 {
      ReachNotes(plan, plan, Ladder.SalienceNotes(ctx, |ctx.segments|));
    } else if k == 1 {
      ScoresReach(ctx, |ctx.segments|, plan);
    } else if k == 2 {
      var ordered := Ladder.SortByScore(plan.scores, ctx.staged);
      LadderUpserts(ctx, Ladder.BarredBy(ctx, plan), ordered, plan.proposals);
      UpsertedReaches(plan, Ladder.LadderAll(ctx, Ladder.BarredBy(ctx, plan), ordered, plan.proposals));
    } else if k == 3 {
      ReachStep(plan, plan, DoRetain(Ladder.Spared(ctx, plan.proposals)));
      ReachNotes(plan, plan.(proposals := Ladder.GateAll(ctx, plan.proposals)),
                 Ladder.VetoNotes(Ladder.VetoList(ctx, plan.proposals, |ctx.staged|)));
    } else {
      ReachStep(plan, plan, DoRetain(Ladder.Cool(ctx)));
      ReachNotes(plan, plan.(proposals := Ladder.CoolAll(ctx, plan.proposals)),
                 Ladder.CoolNotes(Retain(plan.proposals, Ladder.Hot(ctx))));
    }
  }

  /** Every pass of every preset writes only through upsert, retain, record and score. */
  lemma PresetsAreDisciplined(p: Preset, k: nat)
    requires k < |Stages(p)|
    ensures Stages(p)[k].Pass? && Disciplined(Stages(p)[k].apply) && NeverReverts(Stages(p)[k])
  {
    hide Disciplined;
    match p {
      case Deterministic(body, segs, passes) =>
        var step := (ps: seq<Proposal>) => RecodeChain.PassAll(body, segs, passes[k], ps);
        forall ps ensures Upserted(ps, step(ps)) { ChainPassUpserts(body, segs, passes[k], ps); }
        UpsertsAreDisciplined(step);
      case Continuous(ctx) => SpineStagesAreDisciplined(ctx, k);
      case BudgetFallback(body, segs, target) => BudgetStagesAreDisciplined(body, segs, target, k);
      case Identity =>
    }
  }

  lemma BudgetStagesAreDisciplined(body: Body, segs: seq<Segment>, target: nat, k: nat)
    requires k < 3
    ensures Disciplined(Stages(BudgetFallback(body, segs, target))[k].apply)
  {
    hide Disciplined, Upserted, Budget.StripFrom;
    var first, second, third := (ps: seq<Proposal>) => StripRung(body, segs, target, ps),
        (ps: seq<Proposal>) => PairsRung(segs, target, ps), (ps: seq<Proposal>) => OldestRung(segs, target, ps);
    forall ps ensures Upserted(ps, first(ps)) && Upserted(ps, second(ps)) && Upserted(ps, third(ps)) {
      var running := Budget.SatSub(Budget.TotalTokens(segs), Budget.RemovedSoFar(ps));
      UpsertedNothing(ps);
      StripUpserts(body, segs, Budget.StripFrom(body, segs, 0), ps);
      PairsUpserts(segs, 0, running, target, ps);
      OldestUpserts(segs, 0, running, target, ps);
    }
    UpsertsAreDisciplined(first);
    UpsertsAreDisciplined(second);
    UpsertsAreDisciplined(third);
  }

  /** However the runner's reverts are capped, every plan of a preset's run holds at most one proposal
      per segment. */
  lemma PresetRunsKeepOnePerSegment(p: Preset, maxReverts: nat, plan: Plan, k: nat)
    requires OnePerSegment(plan.proposals)
    requires k < |Trace(Stages(p), maxReverts, 0, 0, plan)|
    ensures OnePerSegment(Trace(Stages(p), maxReverts, 0, 0, plan)[k].proposals)
  {
    hide Disciplined, Stages, OnePerSegment;
    forall j | 0 <= j < |Stages(p)| && Stages(p)[j].Pass? ensures Disciplined(Stages(p)[j].apply) {
      PresetsAreDisciplined(p, j);
    }
    EveryPlanHasOnePerSegment(Stages(p), maxReverts, plan, k);
  }

  // ---- what the presets compute ----

  lemma FoldCons(stage: Stage, rest: seq<Stage>, plan: Plan)
    ensures Fold([stage] + rest, plan) == Fold(rest, Visit(stage, plan).0)
  {
    assert ([stage] + rest)[1..] == rest;
  }

  lemma {:induction false} ChainFolds(
    body: Body, segs: seq<Segment>, passes: seq<RecodeChain.ChainPass>, k: nat, plan: Plan)
    requires k <= |passes| && plan.proposals == RecodeChain.After(body, segs, passes, k)
    ensures Fold(Stages(Deterministic(body, segs, passes))[k..], plan) ==
            plan.(proposals := RecodeChain.After(body, segs, passes, |passes|))
    decreases |passes| - k
  {
    hide RecodeChain.PassAll;
    var stages := Stages(Deterministic(body, segs, passes));
    if k == |passes| {
      assert stages[k..] == [];
    } else {
      assert stages[k..] == [stages[k]] + stages[k + 1..];
      FoldCons(stages[k], stages[k + 1..], plan);
      ChainFolds(body, segs, passes, k + 1, plan.(proposals := RecodeChain.After(body, segs, passes, k + 1)));
    }
  }

  function Result(p: Preset, plan: Plan): Plan {
    match p
    case Deterministic(body, segs, passes) => plan.(proposals := RecodeChain.After(body, segs, passes, |passes|))
    case Continuous(ctx) => Ladder.Spine(ctx, plan)
    case BudgetFallback(body, segs, target) => plan.(proposals := Budget.LedgerLadder(body, segs, target))
    case Identity => plan
  }

  lemma SpineFolds(ctx: Ladder.Ctx, plan: Plan)
    ensures Fold(Stages(Continuous(ctx)), plan) == Ladder.Spine(ctx, plan)
  {
    hide Ladder.SaliencePass, Ladder.ScorePass, Ladder.LadderPass, Ladder.GatePass, Ladder.CoolPass;
    var s := Stages(Continuous(ctx));
    var p1 := Ladder.SaliencePass(ctx, plan);
    var p2 := Ladder.ScorePass(ctx, p1);
    var p3 := Ladder.LadderPass(ctx, p2);
    var p4 := Ladder.GatePass(ctx, p3);
    FoldCons(s[0], s[1..], plan);
    FoldCons(s[1], s[2..], p1);
    FoldCons(s[2], s[3..], p2);
    FoldCons(s[3], s[4..], p3);
    FoldCons(s[4], s[5..], p4);
    assert s[5..] == [] && s[4..] == [s[4]] + s[5..] && s[3..] == [s[3]] + s[4..];
    assert s[2..] == [s[2]] + s[3..] && s[1..] == [s[1]] + s[2..] && s == [s[0]] + s[1..];
  }

  lemma BudgetFolds(body: Body, segs: seq<Segment>, target: nat, plan: Plan)
    requires plan.proposals == []
    ensures Fold(Stages(BudgetFallback(body, segs, target)), plan) ==
            plan.(proposals := Budget.LedgerLadder(body, segs, target))
  {
    hide Budget.StripPass, Budget.PairsPass, Budget.OldestPass, Budget.StripFrom;
    var s := Stages(BudgetFallback(body, segs, target));
    var p1 := plan.(proposals := StripRung(body, segs, target, plan.proposals));
    var p2 := p1.(proposals := PairsRung(segs, target, p1.proposals));
    FoldCons(s[0], s[1..], plan);
    FoldCons(s[1], s[2..], p1);
    FoldCons(s[2], s[3..], p2);
    assert s[3..] == [] && s[2..] == [s[2]] + s[3..] && s[1..] == [s[1]] + s[2..] && s == [s[0]] + s[1..];
  }

  /** Run on a ledger without proposals, under any cap on reverts, each preset leaves what its passes
      compute: the recode chain, the spine, the budget ladder, or nothing new. */
  lemma PresetsCompute(p: Preset, maxReverts: nat, plan: Plan)
    requires plan.proposals == []
    ensures RunSpec(Stages(p), maxReverts, plan) == Result(p, plan)
  {
    forall k | 0 <= k < |Stages(p)| ensures NeverReverts(Stages(p)[k]) { PresetsAreDisciplined(p, k); }
    RunIsFold(Stages(p), maxReverts, plan);
    match p {
      case Deterministic(body, segs, passes) =>
        ChainFolds(body, segs, passes, 0, plan);
        assert Stages(p)[0..] == Stages(p);
      case Continuous(ctx) => SpineFolds(ctx, plan);
      case BudgetFallback(body, segs, target) => BudgetFolds(body, segs, target, plan);
      case Identity =>
    }
  }
}
