/** Folding a pipeline of passes and checkpoints over a ledger, with bounded reverts. */
module Runner {
  import opened Basics
  import opened Ledger

  datatype Control = Continue | RevertTo(id: string)

  /** A pass is any function of the plan so far: its context is fixed for the run. */
  datatype Stage = Pass(apply: Plan -> (Plan, Control)) | Checkpoint(id: string)

  function CheckpointPosition(stages: seq<Stage>, id: string): (k: nat)
    ensures k <= |stages|
  {
    if stages == [] || stages[0] == Checkpoint(id) then 0 else 1 + CheckpointPosition(stages[1..], id)
  }

  /** Where the runner goes after visiting stage `i`, and whether that spent a revert. */
  function After(stages: seq<Stage>, maxReverts: nat, i: nat, reverts: nat, control: Control): (next: (nat, nat))
    requires i < |stages| && reverts <= maxReverts
    ensures next.0 <= |stages| && reverts <= next.1 <= maxReverts && next.1 <= reverts + 1
    ensures next.1 == reverts ==> next.0 == i + 1
  {
    if control.RevertTo? && reverts < maxReverts then
      var k := CheckpointPosition(stages, control.id);
      (if k < |stages| then k + 1 else i + 1, reverts + 1)
    else (i + 1, reverts)
  }

  function Visit(stage: Stage, plan: Plan): (Plan, Control) {
    if stage.Pass? then stage.apply(plan) else (plan, Continue)
  }

  /** Every plan of a run: the one before each stage visit, then the final one. */
  function Trace(stages: seq<Stage>, maxReverts: nat, i: nat, reverts: nat, plan: Plan): (t: seq<Plan>)
    requires i <= |stages| && reverts <= maxReverts
    ensures t != [] && t[0] == plan
    decreases maxReverts - reverts, |stages| - i
  {
    if i == |stages| then [plan]
    else
      var (plan', control) := Visit(stages[i], plan);
      var (i', reverts') := After(stages, maxReverts, i, reverts, control);
      [plan] + Trace(stages, maxReverts, i', reverts', plan')
  }

  function Final(t: seq<Plan>): Plan
    requires t != []
  {
    t[|t| - 1]
  }

  function RunSpec(stages: seq<Stage>, maxReverts: nat, plan: Plan): Plan {
    Final(Trace(stages, maxReverts, 0, 0, plan))
  }

  method Run(stages: seq<Stage>, maxReverts: nat, ledger: PlanLedger)
    modifies ledger
    ensures ledger.View() == RunSpec(stages, maxReverts, old(ledger.View()))
  {
    hide CheckpointPosition;
    var i: nat, reverts: nat := 0, 0;
    ghost var result := RunSpec(stages, maxReverts, ledger.View());
    while i < |stages|
      invariant i <= |stages| && reverts <= maxReverts
      invariant Final(Trace(stages, maxReverts, i, reverts, ledger.View())) == result
      decreases maxReverts - reverts, |stages| - i
    {
      TraceStep(stages, maxReverts, i, reverts, ledger.View());
      hide Trace, Final;
      ghost var (plan', control') := Visit(stages[i], ledger.View());
      ghost var next := After(stages, maxReverts, i, reverts, control');
      match stages[i] {
        case Checkpoint(_) => i := i + 1;
        case Pass(apply) =>
          var (plan, control) := apply(ledger.View());
          ledger.scores, ledger.proposals, ledger.provenance := plan.scores, plan.proposals, plan.provenance;
          match control {
            case Continue => i := i + 1;
            case RevertTo(id) =>
              if reverts < maxReverts {
                reverts := reverts + 1;
                var k := CheckpointPosition(stages, id);
                i := if k < |stages| then k + 1 else i + 1;
              } else {
                i := i + 1;
              }
          }
      }
      assert ledger.View() == plan' && (i, reverts) == next;
    }
  }

  lemma TraceStep(stages: seq<Stage>, maxReverts: nat, i: nat, reverts: nat, plan: Plan)
    requires i < |stages| && reverts <= maxReverts
    ensures var (plan', control) := Visit(stages[i], plan);
            var (i', reverts') := After(stages, maxReverts, i, reverts, control);
            Final(Trace(stages, maxReverts, i, reverts, plan)) == Final(Trace(stages, maxReverts, i', reverts', plan'))
  {
    hide After, Visit;
  }

  // ---- the run is bounded ----

  lemma OneMore(k: nat, n: nat)
    ensures (k + 1) * n == k * n + n
  {
  }

  lemma {:induction false} TraceIsBounded(stages: seq<Stage>, maxReverts: nat, i: nat, reverts: nat, plan: Plan)
    requires i <= |stages| && reverts <= maxReverts
    ensures |Trace(stages, maxReverts, i, reverts, plan)| - 1 <= (maxReverts - reverts) * |stages| + (|stages| - i)
    decreases maxReverts - reverts, |stages| - i
  {
    hide After, Visit;
    if i < |stages| {
      var (plan', control) := Visit(stages[i], plan);
      var (i', reverts') := After(stages, maxReverts, i, reverts, control);
      TraceIsBounded(stages, maxReverts, i', reverts', plan');
      if reverts' > reverts { OneMore(maxReverts - reverts', |stages|); }
    }
  }

  /** Whatever the passes answer, the runner visits at most `(maxReverts + 1) * |stages|` stages. */
  lemma RunIsBounded(stages: seq<Stage>, maxReverts: nat, plan: Plan)
    ensures |Trace(stages, maxReverts, 0, 0, plan)| - 1 <= (maxReverts + 1) * |stages|
  {
    TraceIsBounded(stages, maxReverts, 0, 0, plan);
  }

  /** The bound is reached up to its first checkpoint: a pass that always reverts is visited once
      more than the cap, so the cap is what stops it. */
  lemma {:induction false} AlwaysRevertingTrace(
    apply: Plan -> (Plan, Control), maxReverts: nat, reverts: nat, plan: Plan)
    requires forall p :: apply(p).1 == RevertTo("cp")
    requires reverts <= maxReverts
    ensures |Trace([Checkpoint("cp"), Pass(apply)], maxReverts, 1, reverts, plan)| == maxReverts - reverts + 2
    decreases maxReverts - reverts
  {
    var stages := [Checkpoint("cp"), Pass(apply)];
    assert CheckpointPosition(stages, "cp") == 0;
    var plan' := apply(plan).0;
    if reverts < maxReverts {
      AlwaysRevertingTrace(apply, maxReverts, reverts + 1, plan');
      assert After(stages, maxReverts, 1, reverts, RevertTo("cp")) == (1, reverts + 1);
    } else {
      assert After(stages, maxReverts, 1, reverts, RevertTo("cp")) == (2, reverts);
      assert Trace(stages, maxReverts, 2, reverts, plan') == [plan'];
    }
  }

  // ---- the run keeps what every pass keeps ----

  ghost predicate Keeps(apply: Plan -> (Plan, Control), inv: Plan -> bool) {
    forall plan :: inv(plan) ==> inv(apply(plan).0)
  }

  lemma {:induction false} TraceKeeps(
    stages: seq<Stage>, maxReverts: nat, i: nat, reverts: nat, plan: Plan, inv: Plan -> bool)
    requires i <= |stages| && reverts <= maxReverts
    requires inv(plan)
    requires forall k :: 0 <= k < |stages| && stages[k].Pass? ==> Keeps(stages[k].apply, inv)
    ensures forall k :: 0 <= k < |Trace(stages, maxReverts, i, reverts, plan)| ==>
              inv(Trace(stages, maxReverts, i, reverts, plan)[k])
    decreases maxReverts - reverts, |stages| - i
  {
    if i < |stages| {
      var (plan', control) := Visit(stages[i], plan);
      var (i', reverts') := After(stages, maxReverts, i, reverts, control);
      TraceKeeps(stages, maxReverts, i', reverts', plan', inv);
    }
  }

  /** The ways a pass writes to the ledger. */
  datatype Write =
    | DoUpsert(p: Proposal)
    | DoRetain(keep: Proposal -> bool)
    | DoRecord(note: Provenance)
    | DoScore(seg: nat, score: Score)

  function Apply(plan: Plan, w: Write): Plan {
    match w
    case DoUpsert(p) => plan.(proposals := Upsert(plan.proposals, p))
    case DoRetain(keep) => plan.(proposals := Retain(plan.proposals, keep))
    case DoRecord(note) => plan.(provenance := plan.provenance + [note])
    case DoScore(seg, score) => if seg < |plan.scores| then plan.(scores := plan.scores[seg := score]) else plan
  }

  function ApplyAll(plan: Plan, ws: seq<Write>): Plan
    decreases |ws|
  {
    if ws == [] then plan else ApplyAll(Apply(plan, ws[0]), ws[1..])
  }

  /** A pass whose every answer is reached by such writes, chosen however it likes. */
  ghost predicate Disciplined(apply: Plan -> (Plan, Control)) {
    forall plan :: Reachable(plan, apply(plan).0)
  }

  ghost predicate Reachable(plan: Plan, plan': Plan) { exists ws :: plan' == ApplyAll(plan, ws) }

  lemma {:induction false} ApplyAllConcat(plan: Plan, a: seq<Write>, b: seq<Write>)
    ensures ApplyAll(plan, a + b) == ApplyAll(ApplyAll(plan, a), b)
    decreases |a|
  {
    if a == [] {
      assert a + b == b;
    } else {
      assert (a + b)[1..] == a[1..] + b;
      ApplyAllConcat(Apply(plan, a[0]), a[1..], b);
    }
  }

  lemma ReachRefl(plan: Plan)
    ensures Reachable(plan, plan)
  {
    assert plan == ApplyAll(plan, []);
  }

  lemma ReachStep(plan: Plan, plan': Plan, w: Write)
    requires Reachable(plan, plan')
    ensures Reachable(plan, Apply(plan', w))
  {
    var ws :| plan' == ApplyAll(plan, ws);
    ApplyAllConcat(plan, ws, [w]);
    assert ApplyAll(plan', [w]) == ApplyAll(Apply(plan', w), []);
    assert Apply(plan', w) == ApplyAll(plan, ws + [w]);
  }

  lemma ReachTrans(a: Plan, b: Plan, c: Plan)
    requires Reachable(a, b) && Reachable(b, c)
    ensures Reachable(a, c)
  {
    var ws :| b == ApplyAll(a, ws);
    var ws' :| c == ApplyAll(b, ws');
    ApplyAllConcat(a, ws, ws');
  }

  /** A plan that differs in what one write sets. */
  lemma ReachUpsert(plan: Plan, plan': Plan, p: Proposal)
    requires Reachable(plan, plan')
    ensures Reachable(plan, plan'.(proposals := Upsert(plan'.proposals, p)))
  {
    ReachStep(plan, plan', DoUpsert(p));
  }

  lemma {:induction false} ReachNotes(plan: Plan, plan': Plan, notes: seq<Provenance>)
    requires Reachable(plan, plan')
    ensures Reachable(plan, plan'.(provenance := plan'.provenance + notes))
  {
    if notes == [] {
      assert plan'.provenance + notes == plan'.provenance;
    } else {
      var init, last := notes[..|notes| - 1], notes[|notes| - 1];
      ReachNotes(plan, plan', init);
      var mid := plan'.(provenance := plan'.provenance + init);
      ReachStep(plan, mid, DoRecord(last));
      assert (plan'.provenance + init) + [last] == plan'.provenance + notes by { assert init + [last] == notes; }
    }
  }

  lemma {:induction false} ApplyAllKeepsOnePerSegment(plan: Plan, ws: seq<Write>)
    requires OnePerSegment(plan.proposals)
    ensures OnePerSegment(ApplyAll(plan, ws).proposals)
    decreases |ws|
  {
    if ws != [] {
      match ws[0] {
        case DoUpsert(p) => UpsertKeepsOnePerSegment(plan.proposals, p);
        case DoRetain(keep) => RetainKeepsOnePerSegment(plan.proposals, keep);
        case DoRecord(_) =>
        case DoScore(_, _) =>
      }
      ApplyAllKeepsOnePerSegment(Apply(plan, ws[0]), ws[1..]);
    }
  }

  /** Under disciplined passes, every intermediate plan holds at most one proposal per segment. */
  lemma EveryPlanHasOnePerSegment(stages: seq<Stage>, maxReverts: nat, plan: Plan, k: nat)
    requires OnePerSegment(plan.proposals)
    requires forall j :: 0 <= j < |stages| && stages[j].Pass? ==> Disciplined(stages[j].apply)
    requires k < |Trace(stages, maxReverts, 0, 0, plan)|
    ensures OnePerSegment(Trace(stages, maxReverts, 0, 0, plan)[k].proposals)
  {
    ghost var inv: Plan -> bool := (p: Plan) => OnePerSegment(p.proposals);
    forall j | 0 <= j < |stages| && stages[j].Pass? ensures Keeps(stages[j].apply, inv) {
      forall p | inv(p) ensures inv(stages[j].apply(p).0) {
        var ws :| stages[j].apply(p).0 == ApplyAll(p, ws);
        ApplyAllKeepsOnePerSegment(p, ws);
      }
    }
    TraceKeeps(stages, maxReverts, 0, 0, plan, inv);
  }

  // ---- without reverts the run is a plain fold ----

  function Fold(stages: seq<Stage>, plan: Plan): Plan {
    if stages == [] then plan else Fold(stages[1..], Visit(stages[0], plan).0)
  }

  ghost predicate NeverReverts(stage: Stage) { forall plan :: Visit(stage, plan).1 == Continue }

  lemma {:induction false} TraceIsFold(stages: seq<Stage>, maxReverts: nat, i: nat, reverts: nat, plan: Plan)
    requires i <= |stages| && reverts <= maxReverts
    requires forall k :: 0 <= k < |stages| ==> NeverReverts(stages[k])
    ensures Final(Trace(stages, maxReverts, i, reverts, plan)) == Fold(stages[i..], plan)
    decreases |stages| - i
  {
    if i < |stages| {
      assert stages[i..][1..] == stages[i + 1..];
      assert NeverReverts(stages[i]);
      TraceIsFold(stages, maxReverts, i + 1, reverts, Visit(stages[i], plan).0);
    }
  }

  lemma RunIsFold(stages: seq<Stage>, maxReverts: nat, plan: Plan)
    requires forall k :: 0 <= k < |stages| ==> NeverReverts(stages[k])
    ensures RunSpec(stages, maxReverts, plan) == Fold(stages, plan)
  {
    TraceIsFold(stages, maxReverts, 0, 0, plan);
    assert stages[0..] == stages;
  }
}
