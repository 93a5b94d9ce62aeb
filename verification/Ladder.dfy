/** The on-path spine that turns staged decisions into proposals: salience gate, ladder selection,
    economics gate, hot-ref filter. Together they are one strategy choice per segment. */
module Ladder {
  import opened Basics
  import opened Segmentation
  import opened Ledger
  import opened Economics

  datatype Choice = ToTruncate | ToSummarize | ToCompress | ToKeep

  datatype Decision = Decision(choice: Choice, ranges: seq<(nat, nat)>, summary: Option<string>)

  datatype Staged = Staged(segIndex: nat, decision: Decision, candidate: Candidate, npvFloor: real)

  datatype Knobs = Knobs(preGateMinChars: nat, humanVerbatimMax: nat)

  /** `score` is what the scorer makes of each segment, its hot-ref penalty included; `recodes` are the
      deterministic recodes staged, by segment; `scale` calibrates token estimates. */
  datatype Ctx = Ctx(
    segments: seq<Segment>, staged: seq<Staged>, hot: set<string>, knobs: Knobs, econ: ModelEconomics,
    cache: CacheState, turns: real, now: real, score: nat -> Score, scoreFloor: Score,
    recodes: seq<(nat, Candidate)>, scale: nat -> nat)

  // ---- the choice for one segment ----

  /** Tokens times 3.5, rounded half up. */
  function ApproxChars(seg: Segment): nat { (7 * seg.tokens + 1) / 2 }

  predicate IsHugePaste(seg: Segment, knobs: Knobs) {
    seg.isTrueHuman && seg.kind == UserTurn && ApproxChars(seg) > knobs.humanVerbatimMax
  }

  predicate IsCandidate(seg: Segment, knobs: Knobs) {
    !(seg.kind == UserTurn && seg.isTrueHuman) || IsHugePaste(seg, knobs)
  }

  function SummaryOf(d: Decision): string { if d.summary.Some? then d.summary.value else "" }

  predicate PreGated(d: Decision, chars: nat, knobs: Knobs) {
    chars < knobs.preGateMinChars || (d.choice == ToSummarize && |SummaryOf(d)| > chars)
  }

  function Dispatch(d: Decision, id: string): Strategy {
    match d.choice
    case ToTruncate => Truncate(d.ranges)
    case ToSummarize => Summarize(SummaryOf(d))
    case ToCompress => ReversibleRef(id, SummaryOf(d))
    case ToKeep => Keep
  }

  /** The ladder, without the veto. */
  function LadderChoice(seg: Segment, s: Staged, knobs: Knobs): Strategy {
    if IsHugePaste(seg, knobs) then
      (if s.decision.choice == ToCompress then ReversibleRef(s.candidate.refId, SummaryOf(s.decision)) else Keep)
    else if PreGated(s.decision, ApproxChars(seg), knobs) then Keep
    else Dispatch(s.decision, s.candidate.refId)
  }

  predicate Admits(ctx: Ctx, seg: Segment, s: Staged) {
    IsHugePaste(seg, ctx.knobs) ||
    !(seg.pinned || Npv([s.candidate], ctx.cache, ctx.econ, ctx.turns, ctx.now) <= s.npvFloor ||
      ApproxChars(seg) < ctx.knobs.preGateMinChars)
  }

  /** The single-function choice the two passes were split from. */
  function SelectStrategy(ctx: Ctx, seg: Segment, s: Staged): Strategy {
    if IsHugePaste(seg, ctx.knobs) then
      (match s.decision.choice
       case ToCompress => ReversibleRef(s.candidate.refId, SummaryOf(s.decision))
       case _ => Keep)
    else if PreGated(s.decision, ApproxChars(seg), ctx.knobs) then Keep
    else if seg.pinned || Npv([s.candidate], ctx.cache, ctx.econ, ctx.turns, ctx.now) <= s.npvFloor ||
            ApproxChars(seg) < ctx.knobs.preGateMinChars then Keep
    else Dispatch(s.decision, s.candidate.refId)
  }

  // ---- the passes ----

  const SALIENCE := "salience_gate"
  const LADDER := "ladder_select"

  predicate Gated(notes: seq<Provenance>, seg: nat) {
    exists k :: 0 <= k < |notes| && notes[k].segIndex == seg && notes[k].author == SALIENCE
  }

  /** The notes on the first `n` segments: those that may not be offered at all. */
  function SalienceNotes(ctx: Ctx, n: nat): seq<Provenance>
    requires n <= |ctx.segments|
  {
    if n == 0 then []
    else
      var seg := ctx.segments[n - 1];
      SalienceNotes(ctx, n - 1) +
      if IsCandidate(seg, ctx.knobs) then [] else [Provenance(seg.index, SALIENCE, "ineligible: pinned")]
  }

  function SaliencePass(ctx: Ctx, plan: Plan): Plan {
    plan.(provenance := plan.provenance + SalienceNotes(ctx, |ctx.segments|))
  }

  method ApplySalience(ctx: Ctx, ledger: PlanLedger)
    modifies ledger`provenance
    ensures ledger.View() == SaliencePass(ctx, old(ledger.View()))
  {
    assert ledger.provenance + [] == ledger.provenance;
    for n := 0 to |ctx.segments|
      invariant ledger.provenance == old(ledger.provenance) + SalienceNotes(ctx, n)
    {
      var seg := ctx.segments[n];
      if !IsCandidate(seg, ctx.knobs) {
        ledger.Record(Provenance(seg.index, SALIENCE, "ineligible: pinned"));
      }
    }
  }

  predicate Excluded(ctx: Ctx, seg: nat) {
    exists k :: 0 <= k < |ctx.segments| && ctx.segments[k].index == seg && !IsCandidate(ctx.segments[k], ctx.knobs)
  }

  /** The notes gate exactly the segments that are no candidates. */
  lemma {:induction false} NotesGateExcluded(ctx: Ctx, n: nat, seg: nat)
    requires n <= |ctx.segments|
    ensures Gated(SalienceNotes(ctx, n), seg) <==>
            exists k :: 0 <= k < n && ctx.segments[k].index == seg && !IsCandidate(ctx.segments[k], ctx.knobs)
  {
    hide IsCandidate;
    if n > 0 {
      NotesGateExcluded(ctx, n - 1, seg);
      var notes, s := SalienceNotes(ctx, n - 1), ctx.segments[n - 1];
      if IsCandidate(s, ctx.knobs) {
        assert notes + [] == notes;
      } else {
        GatedPush(notes, Provenance(s.index, SALIENCE, "ineligible: pinned"), seg);
      }
    }
  }

  lemma GatedPush(notes: seq<Provenance>, note: Provenance, i: nat)
    ensures Gated(notes + [note], i) <==> Gated(notes, i) || (note.segIndex == i && note.author == SALIENCE)
  {
    if Gated(notes, i) {
      var k :| 0 <= k < |notes| && notes[k].segIndex == i && notes[k].author == SALIENCE;
      assert (notes + [note])[k] == notes[k];
    }
    if note.segIndex == i && note.author == SALIENCE { assert (notes + [note])[|notes|] == note; }
  }

  // ---- scores ----

  function ScoreTo(ctx: Ctx, n: nat, scores: seq<Score>): (r: seq<Score>)
    requires n <= |ctx.segments|
    ensures |r| == |scores|
  {
    if n == 0 then scores
    else
      var r, i := ScoreTo(ctx, n - 1, scores), ctx.segments[n - 1].index;
      if i < |r| then r[i := ctx.score(i)] else r
  }

  function ScorePass(ctx: Ctx, plan: Plan): Plan { plan.(scores := ScoreTo(ctx, |ctx.segments|, plan.scores)) }

  /** Sets every segment's score; the table must be large enough. */
  method ApplyScores(ctx: Ctx, ledger: PlanLedger)
    requires forall k :: 0 <= k < |ctx.segments| ==> ctx.segments[k].index < |ledger.scores|
    modifies ledger`scores
    ensures ledger.View() == ScorePass(ctx, old(ledger.View()))
  {
    for n := 0 to |ctx.segments|
      invariant ledger.scores == ScoreTo(ctx, n, old(ledger.scores))
    {
      var i := ctx.segments[n].index;
      ledger.SetScore(i, ctx.score(i));
    }
  }

  /** A segment's index is its position, as segmentation numbers them. */
  ghost predicate Indexed(segs: seq<Segment>) { forall k :: 0 <= k < |segs| ==> segs[k].index == k }

  lemma {:induction false} ScoresAre(ctx: Ctx, n: nat, scores: seq<Score>)
    requires Indexed(ctx.segments) && n <= |ctx.segments| <= |scores|
    ensures forall i :: 0 <= i < |scores| ==> ScoreTo(ctx, n, scores)[i] == if i < n then ctx.score(i) else scores[i]
  {
    if n > 0 { ScoresAre(ctx, n - 1, scores); }
  }

  predicate AtLeast(a: Score, b: Score) { b.Vetoed? || (a.Scored? && a.v >= b.v) }

  /** A segment without a score is admitted. */
  predicate Admitted(scores: seq<Score>, floor: Score, seg: nat) { seg < |scores| ==> AtLeast(scores[seg], floor) }

  function ValueOf(scores: seq<Score>, seg: nat): Score { if seg < |scores| then scores[seg] else Scored(0.0) }

  /** Highest score first, ties by segment. */
  predicate Precedes(scores: seq<Score>, a: Staged, b: Staged) {
    var x, y := ValueOf(scores, a.segIndex), ValueOf(scores, b.segIndex);
    if x == y then a.segIndex <= b.segIndex else AtLeast(x, y)
  }

  function InsertByScore(scores: seq<Score>, s: Staged, sorted: seq<Staged>): (r: seq<Staged>)
    ensures multiset(r) == multiset(sorted) + multiset{s}
  {
    if sorted == [] || Precedes(scores, s, sorted[0]) then [s] + sorted
    else
      assert sorted == [sorted[0]] + sorted[1..];
      [sorted[0]] + InsertByScore(scores, s, sorted[1..])
  }

  function SortByScore(scores: seq<Score>, staged: seq<Staged>): (r: seq<Staged>)
    ensures multiset(r) == multiset(staged)
  {
    if staged == [] then []
    else
      assert staged == [staged[0]] + staged[1..];
      InsertByScore(scores, staged[0], SortByScore(scores, staged[1..]))
  }

  ghost predicate Ranked(scores: seq<Score>, sorted: seq<Staged>) {
    forall i, j :: 0 <= i < j < |sorted| ==> Precedes(scores, sorted[i], sorted[j])
  }

  lemma {:induction false} InsertKeepsRanks(scores: seq<Score>, s: Staged, sorted: seq<Staged>)
    requires Ranked(scores, sorted)
    ensures Ranked(scores, InsertByScore(scores, s, sorted))
  {
    if sorted != [] && !Precedes(scores, s, sorted[0]) {
      var rest := InsertByScore(scores, s, sorted[1..]);
      InsertKeepsRanks(scores, s, sorted[1..]);
      forall j | 0 <= j < |rest| ensures Precedes(scores, sorted[0], rest[j]) {
        assert rest[j] in multiset(sorted[1..]) + multiset{s};
      }
    }
  }

  /** The segments are offered from the highest score down. */
  lemma {:induction false} OffersAreRanked(scores: seq<Score>, staged: seq<Staged>)
    ensures Ranked(scores, SortByScore(scores, staged))
  {
    if staged != [] {
      OffersAreRanked(scores, staged[1..]);
      InsertKeepsRanks(scores, staged[0], SortByScore(scores, staged[1..]));
    }
  }

  // ---- the ladder pass ----

  function ProposalOf(s: Staged, strategy: Strategy): Proposal {
    Proposal(s.segIndex, strategy, Some(s.candidate.refId), None, s.candidate.netRemoved, LADDER)
  }

  /** What the plan so far rules out: gated segments and those scored below the floor. */
  function BarredBy(ctx: Ctx, plan: Plan): nat -> bool {
    (seg: nat) => Gated(plan.provenance, seg) || !Admitted(plan.scores, ctx.scoreFloor, seg)
  }

  predicate Considered(ctx: Ctx, barred: nat -> bool, s: Staged) {
    s.segIndex < |ctx.segments| && !barred(s.segIndex)
  }

  function LadderStep(ctx: Ctx, barred: nat -> bool, s: Staged, ps: seq<Proposal>): seq<Proposal> {
    if !Considered(ctx, barred, s) then ps
    else
      var strategy := LadderChoice(ctx.segments[s.segIndex], s, ctx.knobs);
      if strategy == Keep then ps else Upsert(ps, ProposalOf(s, strategy))
  }

  function LadderAll(ctx: Ctx, barred: nat -> bool, ordered: seq<Staged>, ps: seq<Proposal>): seq<Proposal> {
    if ordered == [] then ps
    else LadderStep(ctx, barred, ordered[|ordered| - 1], LadderAll(ctx, barred, ordered[..|ordered| - 1], ps))
  }

  function LadderPass(ctx: Ctx, plan: Plan): Plan {
    plan.(proposals := LadderAll(ctx, BarredBy(ctx, plan), SortByScore(plan.scores, ctx.staged), plan.proposals))
  }

  method ApplyLadder(ctx: Ctx, ledger: PlanLedger)
    modifies ledger`proposals
    ensures ledger.View() == LadderPass(ctx, old(ledger.View()))
  {
    hide LadderChoice;
    ghost var barred := BarredBy(ctx, ledger.View());
    var ordered := SortByScore(ledger.scores, ctx.staged);
    for n := 0 to |ordered|
      invariant ledger.proposals == LadderAll(ctx, barred, ordered[..n], old(ledger.proposals))
    {
      var s := ordered[n];
      assert ordered[..n + 1][..n] == ordered[..n];
      if s.segIndex < |ctx.segments| && !Gated(ledger.provenance, s.segIndex) &&
         Admitted(ledger.scores, ctx.scoreFloor, s.segIndex) {
        var strategy := LadderChoice(ctx.segments[s.segIndex], s, ctx.knobs);
        if strategy != Keep { ledger.UpsertProposal(ProposalOf(s, strategy)); }
      }
    }
    assert ordered[..|ordered|] == ordered;
  }

  // ---- the veto and the hot-ref filter ----

  predicate FromLadder(ps: seq<Proposal>, seg: nat) {
    Find(ps, seg).Some? && Find(ps, seg).value.author == LADDER
  }

  predicate Vetoes(ctx: Ctx, ps: seq<Proposal>, s: Staged) {
    FromLadder(ps, s.segIndex) && s.segIndex < |ctx.segments| && !Admits(ctx, ctx.segments[s.segIndex], s)
  }

  predicate VetoedSegment(ctx: Ctx, ps: seq<Proposal>, seg: nat) {
    exists k :: 0 <= k < |ctx.staged| && ctx.staged[k].segIndex == seg && Vetoes(ctx, ps, ctx.staged[k])
  }

  function Spared(ctx: Ctx, ps: seq<Proposal>): Proposal -> bool {
    (p: Proposal) => !VetoedSegment(ctx, ps, p.segIndex)
  }

  function Cool(ctx: Ctx): Proposal -> bool {
    (p: Proposal) => p.refId.None? || p.refId.value !in ctx.hot
  }

  function Hot(ctx: Ctx): Proposal -> bool {
    (p: Proposal) => p.refId.Some? && p.refId.value in ctx.hot
  }

  function Outside(segs: seq<nat>): Proposal -> bool { (p: Proposal) => p.segIndex !in segs }

  function GateAll(ctx: Ctx, ps: seq<Proposal>): seq<Proposal> {
    Retain(ps, Spared(ctx, ps))
  }

  /** The segments the first `n` staged entries veto. */
  function VetoList(ctx: Ctx, ps: seq<Proposal>, n: nat): (segs: seq<nat>)
    requires n <= |ctx.staged|
    ensures forall i :: i in segs <==>
              exists k :: 0 <= k < n && ctx.staged[k].segIndex == i && Vetoes(ctx, ps, ctx.staged[k])
  {
    if n == 0 then []
    else
      VetoList(ctx, ps, n - 1) + if Vetoes(ctx, ps, ctx.staged[n - 1]) then [ctx.staged[n - 1].segIndex] else []
  }

  function VetoNotes(segs: seq<nat>): seq<Provenance> {
    seq(|segs|, k requires 0 <= k < |segs| => Provenance(segs[k], "economics_gate", "economics veto"))
  }

  function GatePass(ctx: Ctx, plan: Plan): Plan {
    plan.(proposals := GateAll(ctx, plan.proposals),
          provenance := plan.provenance + VetoNotes(VetoList(ctx, plan.proposals, |ctx.staged|)))
  }

  function CoolAll(ctx: Ctx, ps: seq<Proposal>): seq<Proposal> {
    Retain(ps, Cool(ctx))
  }

  function CoolNotes(dropped: seq<Proposal>): seq<Provenance> {
    seq(|dropped|, k requires 0 <= k < |dropped| => Provenance(dropped[k].segIndex, "anti_thrash", "dropped: ref hot"))
  }

  function CoolPass(ctx: Ctx, plan: Plan): Plan {
    plan.(proposals := CoolAll(ctx, plan.proposals),
          provenance := plan.provenance + CoolNotes(Retain(plan.proposals, Hot(ctx))))
  }

  lemma {:induction false} RetainTwice(
    ps: seq<Proposal>, a: Proposal -> bool, b: Proposal -> bool, both: Proposal -> bool)
    requires forall p :: both(p) <==> a(p) && b(p)
    ensures Retain(Retain(ps, a), b) == Retain(ps, both)
  {
    if ps != [] {
      RetainTwice(ps[1..], a, b, both);
      var rest := Retain(ps[1..], a);
      assert ([ps[0]] + rest)[1..] == rest && [] + rest == rest;
    }
  }

  lemma {:induction false} RetainSame(ps: seq<Proposal>, a: Proposal -> bool, b: Proposal -> bool)
    requires forall p :: a(p) <==> b(p)
    ensures Retain(ps, a) == Retain(ps, b)
  {
    if ps != [] { RetainSame(ps[1..], a, b); }
  }

  lemma {:induction false} RetainEverything(ps: seq<Proposal>, a: Proposal -> bool)
    requires forall p :: a(p)
    ensures Retain(ps, a) == ps
  {
    if ps != [] { RetainEverything(ps[1..], a); }
  }

  /** Removes the proposals whose segments the veto names. */
  method ApplyGate(ctx: Ctx, ledger: PlanLedger)
    modifies ledger
    ensures ledger.View() == GatePass(ctx, old(ledger.View()))
  {
    hide Retain, VetoNotes, Vetoes;
    ghost var was, notes := ledger.proposals, ledger.provenance;
    var vetoed: seq<nat> := [];
    for n := 0 to |ctx.staged|
      invariant vetoed == VetoList(ctx, was, n)
      invariant ledger.View() == old(ledger.View())
    {
      var s := ctx.staged[n];
      if Vetoes(ctx, ledger.proposals, s) { vetoed := vetoed + [s.segIndex]; }
    }
    RetainEverything(was, Outside(vetoed[..0]));
    NoNotes(notes);
    for n := 0 to |vetoed|
      invariant ledger.proposals == Retain(was, Outside(vetoed[..n]))
      invariant ledger.provenance == notes + VetoNotes(vetoed[..n])
      invariant ledger.scores == old(ledger.scores)
    {
      var i := vetoed[n];
      assert vetoed[..n + 1] == vetoed[..n] + [i];
      RetainTwice(was, Outside(vetoed[..n]), Outside([i]), Outside(vetoed[..n + 1]));
      OneMoreVeto(notes, vetoed, n);
      ledger.proposals := Retain(ledger.proposals, Outside([i]));
      ledger.Record(Provenance(i, "economics_gate", "economics veto"));
    }
    assert vetoed[..|vetoed|] == vetoed;
    RetainSame(was, Outside(vetoed), Spared(ctx, was));
  }

  /** Drops the proposals whose ref is in flight. */
  method ApplyAntiThrash(ctx: Ctx, ledger: PlanLedger)
    modifies ledger
    ensures ledger.View() == CoolPass(ctx, old(ledger.View()))
  {
    hide Retain, Hot, Cool;
    var dropped := Retain(ledger.proposals, Hot(ctx));
    ledger.proposals := Retain(ledger.proposals, Cool(ctx));
    ghost var kept, notes := ledger.proposals, ledger.provenance;
    NoNotes(notes);
    for n := 0 to |dropped|
      invariant ledger.proposals == kept && ledger.scores == old(ledger.scores)
      invariant ledger.provenance == notes + CoolNotes(dropped[..n])
    {
      OneMoreNote(notes, dropped, n);
      ledger.Record(Provenance(dropped[n].segIndex, "anti_thrash", "dropped: ref hot"));
    }
    assert dropped[..|dropped|] == dropped;
  }

  lemma OneMoreNote(notes: seq<Provenance>, dropped: seq<Proposal>, n: nat)
    requires n < |dropped|
    ensures notes + CoolNotes(dropped[..n + 1]) ==
            (notes + CoolNotes(dropped[..n])) + [Provenance(dropped[n].segIndex, "anti_thrash", "dropped: ref hot")]
  {
  }

  lemma NoNotes(notes: seq<Provenance>)
    ensures notes + VetoNotes([]) == notes && notes + CoolNotes([]) == notes
  {
  }

  lemma OneMoreVeto(notes: seq<Provenance>, vetoed: seq<nat>, n: nat)
    requires n < |vetoed|
    ensures notes + VetoNotes(vetoed[..n + 1]) ==
            (notes + VetoNotes(vetoed[..n])) + [Provenance(vetoed[n], "economics_gate", "economics veto")]
  {
  }

  function Spine(ctx: Ctx, plan: Plan): Plan {
    CoolPass(ctx, GatePass(ctx, LadderPass(ctx, ScorePass(ctx, SaliencePass(ctx, plan)))))
  }

  /** The whole spine. */
  method RunSpine(ctx: Ctx, ledger: PlanLedger)
    requires forall k :: 0 <= k < |ctx.segments| ==> ctx.segments[k].index < |ledger.scores|
    modifies ledger
    ensures ledger.View() == Spine(ctx, old(ledger.View()))
  {
    ApplySalience(ctx, ledger);
    ApplyScores(ctx, ledger);
    ApplyLadder(ctx, ledger);
    ApplyGate(ctx, ledger);
    ApplyAntiThrash(ctx, ledger);
  }

  /** What the spine starts from and what it leaves. */
  function SpineProposals(ctx: Ctx): seq<Proposal> { Spine(ctx, Sized(|ctx.segments|)).proposals }

  function RuledOut(ctx: Ctx): nat -> bool {
    (seg: nat) => Excluded(ctx, seg) || (seg < |ctx.segments| && !AtLeast(ctx.score(seg), ctx.scoreFloor))
  }

  lemma {:induction false} LadderSame(
    ctx: Ctx, a: nat -> bool, b: nat -> bool, ordered: seq<Staged>, ps: seq<Proposal>)
    requires forall i :: a(i) <==> b(i)
    ensures LadderAll(ctx, a, ordered, ps) == LadderAll(ctx, b, ordered, ps)
  {
    hide LadderChoice;
    if ordered != [] { LadderSame(ctx, a, b, ordered[..|ordered| - 1], ps); }
  }

  /** The spine's proposals, without the plan around them. */
  lemma SpineIs(ctx: Ctx)
    requires Indexed(ctx.segments)
    ensures exists ordered :: multiset(ordered) == multiset(ctx.staged) &&
              SpineProposals(ctx) == CoolAll(ctx, GateAll(ctx, LadderAll(ctx, RuledOut(ctx), ordered, [])))
  {
    hide Gated, Excluded, ScoreTo, SalienceNotes, LadderAll, GateAll, CoolAll, VetoList, SortByScore;
    var n := |ctx.segments|;
    var scored := ScorePass(ctx, SaliencePass(ctx, Sized(n)));
    ScoresAre(ctx, n, Sized(n).scores);
    assert scored.provenance == SalienceNotes(ctx, n) by { assert [] + SalienceNotes(ctx, n) == SalienceNotes(ctx, n); }
    forall i ensures BarredBy(ctx, scored)(i) <==> RuledOut(ctx)(i) {
      NotesGateExcluded(ctx, n, i);
      ExcludedIs(ctx, i);
    }
    var ordered := SortByScore(scored.scores, ctx.staged);
    LadderSame(ctx, BarredBy(ctx, scored), RuledOut(ctx), ordered, []);
  }

  lemma ExcludedIs(ctx: Ctx, seg: nat)
    ensures Excluded(ctx, seg) <==>
            exists k :: 0 <= k < |ctx.segments| && ctx.segments[k].index == seg &&
                !IsCandidate(ctx.segments[k], ctx.knobs)
  {
  }

  // ---- what the spine computes ----

  ghost predicate DistinctStaged(staged: seq<Staged>) {
    forall i, j :: 0 <= i < j < |staged| ==> staged[i].segIndex != staged[j].segIndex
  }

  lemma FindCons(p: Proposal, ps: seq<Proposal>, seg: nat)
    ensures Find([p] + ps, seg) == if p.segIndex == seg then Some(p) else Find(ps, seg)
  {
    assert ([p] + ps)[1..] == ps;
  }

  lemma FindAbsent(ps: seq<Proposal>, seg: nat)
    requires forall p :: p in ps ==> p.segIndex != seg
    ensures Find(ps, seg) == None
  {
  }

  lemma {:induction false} FindAfterRetain(ps: seq<Proposal>, keep: Proposal -> bool, seg: nat)
    requires OnePerSegment(ps)
    ensures Find(Retain(ps, keep), seg) ==
            if Find(ps, seg).Some? && keep(Find(ps, seg).value) then Find(ps, seg) else None
  {
    if ps == [] {
      FindAbsent(ps, seg);
    } else {
      FindAfterRetain(ps[1..], keep, seg);
      var rest := Retain(ps[1..], keep);
      FindCons(ps[0], ps[1..], seg);
      FindCons(ps[0], rest, seg);
      assert [ps[0]] + ps[1..] == ps && [] + rest == rest;
      if ps[0].segIndex == seg {
        forall p | p in ps[1..] ensures p.segIndex != seg {
          var k :| 0 <= k < |ps[1..]| && ps[1..][k] == p;
          assert ps[k + 1] == p;
        }
        FindAbsent(ps[1..], seg);
      }
      hide Find, OnePerSegment;
    }
  }

  /** What the ladder would offer for this entry. */
  function Offer(ctx: Ctx, barred: nat -> bool, s: Staged): Option<Proposal> {
    if Considered(ctx, barred, s) && LadderChoice(ctx.segments[s.segIndex], s, ctx.knobs) != Keep then
      Some(ProposalOf(s, LadderChoice(ctx.segments[s.segIndex], s, ctx.knobs)))
    else None
  }

  lemma {:induction false} LadderSlot(ctx: Ctx, barred: nat -> bool, ordered: seq<Staged>, seg: nat)
    requires DistinctStaged(ordered)
    ensures OnePerSegment(LadderAll(ctx, barred, ordered, []))
    ensures forall k :: 0 <= k < |ordered| && ordered[k].segIndex == seg ==>
              Find(LadderAll(ctx, barred, ordered, []), seg) == Offer(ctx, barred, ordered[k])
    ensures (forall k :: 0 <= k < |ordered| ==> ordered[k].segIndex != seg) ==>
              Find(LadderAll(ctx, barred, ordered, []), seg) == None
  {
    hide LadderChoice, Find, OnePerSegment;
    if ordered == [] {
      EmptyLedger(seg);
    } else {
      var last, init := ordered[|ordered| - 1], ordered[..|ordered| - 1];
      LadderSlot(ctx, barred, init, seg);
      var ps := LadderAll(ctx, barred, init, []);
      var offer := Offer(ctx, barred, last);
      if offer.Some? {
        UpsertKeepsOnePerSegment(ps, offer.value);
        FindAfterUpsert(ps, offer.value, seg);
      }
      forall k | 0 <= k < |ordered| && ordered[k].segIndex == seg
        ensures Find(LadderAll(ctx, barred, ordered, []), seg) == Offer(ctx, barred, ordered[k])
      {
        if k < |init| {
          assert init[k] == ordered[k];
        } else {
          assert forall j :: 0 <= j < |init| ==> init[j] == ordered[j];
        }
      }
    }
  }

  lemma EmptyLedger(seg: nat)
    ensures OnePerSegment([]) && Find([], seg) == None
  {
  }

  /** Ladder and veto composed are the single-function choice. */
  lemma LadderThenVeto(ctx: Ctx, seg: Segment, s: Staged)
    ensures SelectStrategy(ctx, seg, s) == if Admits(ctx, seg, s) then LadderChoice(seg, s, ctx.knobs) else Keep
  {
    hide Npv, ApproxChars;
  }

  /** Whatever the scores, the spine leaves for each staged entry exactly the strategy the single
      function picks, unless that is to keep the segment, the segment is excluded or scored below the
      floor, or its ref is in flight; and it leaves nothing else. */
  lemma SpineIsSelectStrategy(ctx: Ctx, seg: nat)
    requires Indexed(ctx.segments) && DistinctStaged(ctx.staged)
    ensures forall k :: 0 <= k < |ctx.staged| && ctx.staged[k].segIndex == seg ==>
              Find(SpineProposals(ctx), seg) == Survivor(ctx, ctx.staged[k])
    ensures (forall k :: 0 <= k < |ctx.staged| ==> ctx.staged[k].segIndex != seg) ==>
            Find(SpineProposals(ctx), seg) == None
    ensures OnePerSegment(SpineProposals(ctx))
  {
    SpineIs(ctx);
    var ordered: seq<Staged> :| multiset(ordered) == multiset(ctx.staged) &&
      SpineProposals(ctx) == CoolAll(ctx, GateAll(ctx, LadderAll(ctx, RuledOut(ctx), ordered, [])));
    OrderedIsDistinct(ordered, ctx.staged);
    LadderSlot(ctx, RuledOut(ctx), ordered, seg);
    var offered := LadderAll(ctx, RuledOut(ctx), ordered, []);
    VetoAndCool(ctx, offered, seg);
    hide Find, LadderAll, CoolAll, GateAll, OnePerSegment, SpineProposals, Survivor, RuledOut, VetoedSegment, Offer;
    forall k | 0 <= k < |ctx.staged| && ctx.staged[k].segIndex == seg
      ensures Find(SpineProposals(ctx), seg) == Survivor(ctx, ctx.staged[k])
    {
      assert ctx.staged[k] in multiset(ordered);
      var j :| 0 <= j < |ordered| && ordered[j] == ctx.staged[k];
      SurvivorIs(ctx, offered, k);
    }
    if forall k :: 0 <= k < |ctx.staged| ==> ctx.staged[k].segIndex != seg {
      forall j | 0 <= j < |ordered| ensures ordered[j].segIndex != seg { assert ordered[j] in multiset(ctx.staged); }
    }
  }

  lemma VetoAndCool(ctx: Ctx, offered: seq<Proposal>, seg: nat)
    requires OnePerSegment(offered)
    ensures OnePerSegment(CoolAll(ctx, GateAll(ctx, offered)))
    ensures Find(CoolAll(ctx, GateAll(ctx, offered)), seg) ==
            if Find(offered, seg).Some? && !VetoedSegment(ctx, offered, seg) && Cool(ctx)(Find(offered, seg).value)
            then Find(offered, seg) else None
  {
    var vetoed := GateAll(ctx, offered);
    FindAfterRetain(offered, Spared(ctx, offered), seg);
    RetainKeepsOnePerSegment(offered, Spared(ctx, offered));
    FindAfterRetain(vetoed, Cool(ctx), seg);
    RetainKeepsOnePerSegment(vetoed, Cool(ctx));
    hide Retain, OnePerSegment, VetoedSegment;
  }

  /** What the spine leaves for a staged entry. */
  function Survivor(ctx: Ctx, s: Staged): Option<Proposal> {
    if Considered(ctx, RuledOut(ctx), s) && s.candidate.refId !in ctx.hot &&
       SelectStrategy(ctx, ctx.segments[s.segIndex], s) != Keep
    then Some(ProposalOf(s, SelectStrategy(ctx, ctx.segments[s.segIndex], s)))
    else None
  }

  lemma SurvivorIs(ctx: Ctx, offered: seq<Proposal>, k: nat)
    requires k < |ctx.staged| && DistinctStaged(ctx.staged)
    requires Find(offered, ctx.staged[k].segIndex) == Offer(ctx, RuledOut(ctx), ctx.staged[k])
    ensures var s, found := ctx.staged[k], Find(offered, ctx.staged[k].segIndex);
            Survivor(ctx, s) ==
            if found.Some? && !VetoedSegment(ctx, offered, s.segIndex) && Cool(ctx)(found.value) then found else None
  {
    hide Find, LadderChoice, SelectStrategy, Admits, RuledOut;
    var s := ctx.staged[k];
    if s.segIndex < |ctx.segments| { LadderThenVeto(ctx, ctx.segments[s.segIndex], s); }
    assert VetoedSegment(ctx, offered, s.segIndex) <==> Vetoes(ctx, offered, s);
  }

  lemma OrderedIsDistinct(ordered: seq<Staged>, staged: seq<Staged>)
    requires multiset(ordered) == multiset(staged) && DistinctStaged(staged)
    ensures DistinctStaged(ordered)
  {
    forall i, j | 0 <= i < j < |ordered| ensures ordered[i].segIndex != ordered[j].segIndex {
      var a, b := ordered[i], ordered[j];
      assert a in multiset(staged) && b in multiset(staged);
      if a == b {
        assert ordered == ordered[..j] + [b] + ordered[j + 1..];
        assert ordered[..j][i] == a;
        assert multiset(ordered)[a] >= 2;
        OnceEach(staged, a);
        assert false;
      }
    }
  }

  lemma {:induction false} OnceEach(staged: seq<Staged>, s: Staged)
    requires DistinctStaged(staged)
    ensures multiset(staged)[s] <= 1
  {
    if staged != [] {
      assert staged == [staged[0]] + staged[1..];
      OnceEach(staged[1..], s);
      assert forall k :: 0 <= k < |staged[1..]| ==> staged[1..][k] == staged[k + 1];
    }
  }

  // ---- the batch the controller prices ----

  /** A row of the live batch: what the spine left of a staged entry, or a staged deterministic recode,
      which bypasses the ladder and its veto. */
  datatype Row = FromSpine(s: Staged) | FromRecode(segIndex: nat, candidate: Candidate)

  function CandidateOf(row: Row): Candidate {
    match row case FromSpine(s) => s.candidate case FromRecode(_, c) => c
  }

  /** The tokens after a segment. */
  function SuffixTokens(segs: seq<Segment>, k: nat): nat {
    if segs == [] then 0 else (if segs[0].index > k then segs[0].tokens else 0) + SuffixTokens(segs[1..], k)
  }

  /** The candidate is priced for a segment of the prompt. */
  predicate IsFor(ctx: Ctx, c: Candidate, k: nat) {
    k < |ctx.segments| && c.suffixTokens == ctx.scale(SuffixTokens(ctx.segments, k))
  }

  ghost predicate IsLive(ctx: Ctx, row: Row) {
    match row
    case FromSpine(s) => s in ctx.staged && Find(SpineProposals(ctx), s.segIndex).Some?
    case FromRecode(k, c) => (k, c) in ctx.recodes && IsFor(ctx, c, k) && c.refId !in ctx.hot
  }

  /** A row no per-candidate price test stands behind. */
  predicate Unpriced(ctx: Ctx, row: Row) {
    row.FromRecode? || (row.s.segIndex < |ctx.segments| && IsHugePaste(ctx.segments[row.s.segIndex], ctx.knobs))
  }

  function Candidates(rows: seq<Row>): seq<Candidate> {
    seq(|rows|, k requires 0 <= k < |rows| => CandidateOf(rows[k]))
  }

  ghost predicate SameMarket(ctx: Ctx, c: Controller) {
    c.econ == ctx.econ && c.cache == ctx.cache && c.remainingTurns == ctx.turns && c.scale == ctx.scale &&
    forall k :: 0 <= k < |ctx.staged| ==> ctx.staged[k].npvFloor == c.npvFloor
  }

  lemma PricedRowsClear(ctx: Ctx, c: Controller, row: Row)
    requires Indexed(ctx.segments) && DistinctStaged(ctx.staged) && SameMarket(ctx, c) && IsLive(ctx, row)
    requires !Unpriced(ctx, row)
    ensures Npv([CandidateOf(row)], c.cache, c.econ, c.remainingTurns, ctx.now) > c.npvFloor
  {
    hide SpineProposals, Npv, OnePerSegment, Find, RuledOut;
    SpineIsSelectStrategy(ctx, row.s.segIndex);
  }

  /** At a floor that is not negative, a live batch is held for being warm and deep only because of a
      row that the per-candidate gate never priced, a recode or a huge paste, and whose own price
      does not clear the floor. */
  lemma ParkedBlamesUnpriced(ctx: Ctx, c: Controller, prompt: Prompt, rows: seq<Row>) returns (k: nat)
    requires Indexed(ctx.segments) && DistinctStaged(ctx.staged) && SameMarket(ctx, c)
    requires Ordinary(c.econ) && c.npvFloor >= 0.0
    requires rows != [] && forall i :: 0 <= i < |rows| ==> IsLive(ctx, rows[i])
    requires c.Decide(prompt, Candidates(rows), ctx.now) == Hold(WarmDeep)
    ensures k < |rows| && Unpriced(ctx, rows[k])
    ensures Npv([CandidateOf(rows[k])], c.cache, c.econ, c.remainingTurns, ctx.now) <= c.npvFloor
  {
    var batch := Candidates(rows);
    if EachClears(c, batch, ctx.now) {
      GatesAgree(c, prompt, batch, ctx.now);
      assert false;
    }
    hide Npv, IsLive, Unpriced, SameMarket;
    var bad: nat :| bad < |batch| && Npv([batch[bad]], c.cache, c.econ, c.remainingTurns, ctx.now) <= c.npvFloor;
    k := bad;
    if !Unpriced(ctx, rows[k]) { PricedRowsClear(ctx, c, rows[k]); }
  }

  // ---- both kinds of unpriced row can park a batch ----

  const RATES: ModelEconomics := ModelEconomics(0.000005, 2.0, 0.1, 1024)
  const WARM: CacheState := CacheState(0.0, 3600.0)

  /** Ten thousand tokens replaced by a placeholder of a hundred, ahead of two hundred thousand. */
  const BIG: Candidate := Candidate(200000, 9900, 0.0, "r")

  function Unscaled(): nat -> nat { (t: nat) => t }

  function Market(first: Segment, staged: seq<Staged>, recodes: seq<(nat, Candidate)>): Ctx {
    Ctx([first, Segment(1, AssistantTurn, 0, 200000, 1, true, true, false, [1])], staged, {}, Knobs(256, 16384),
        RATES, WARM, 1.0, 0.0, _ => Scored(0.0), Vetoed, recodes, Unscaled())
  }

  /** One turn left, in a cache just used. */
  function Pricer(): Controller { Controller(RATES, WARM, 1.0, 0.0, Unscaled()) }

  function PromptOf(ctx: Ctx): Prompt {
    Prompt(seq(|ctx.segments|, k requires 0 <= k < |ctx.segments| => ctx.segments[k].tokens), None)
  }

  lemma BigPrice()
    ensures Price(RATES, 1.0) == 0.0000005
  {
  }

  /** A cache just used is alive. */
  lemma JustUsed()
    ensures PAlive(WARM, 0.0) == 1.0 && !IsCold(WARM, 0.0)
  {
    assert Idle(WARM, 0.0) == 0.0;
  }

  lemma BigRate()
    ensures Rate(WARM, RATES, 0.0) == 0.0000095
  {
    JustUsed();
    hide PAlive, IsCold;
  }

  lemma BigWorth()
    ensures Worth(9900, 0.0, 200000, 0.0000005, 0.0000095) == -1.89505
  {
  }

  lemma BigCosts()
    ensures Npv([BIG], WARM, RATES, 1.0, 0.0) == -1.89505
  {
    hide Npv, Worth, Rate, Price, TotalRemoved, TotalQuality, MaxSuffix;
    NpvForm([BIG], WARM, RATES, 1.0, 0.0);
    SinglesAre(BIG);
    BigPrice();
    BigRate();
    BigWorth();
  }

  lemma BigIsParked(tokens: seq<nat>)
    requires tokens == [10000, 200000]
    ensures Pricer().Decide(Prompt(tokens, None), [BIG], 0.0) == Hold(WarmDeep)
  {
    hide Npv, TotalRemoved;
    BigCosts();
    SinglesAre(BIG);
    var c := Pricer();
    assert tokens[1..] == [200000] && [200000][1..] == [];
    assert c.Prefix([200000]) == 200000;
    assert c.Prefix(tokens) == 210000;
  }

  lemma MarketFits(first: Segment, staged: seq<Staged>, recodes: seq<(nat, Candidate)>)
    requires first.index == 0 && first.tokens == 10000
    ensures var ctx := Market(first, staged, recodes);
            Indexed(ctx.segments) && IsFor(ctx, BIG, 0) && PromptOf(ctx).tokens == [10000, 200000]
  {
    var ctx := Market(first, staged, recodes);
    var second := ctx.segments[1];
    assert ctx.segments[1..] == [second] && [second][1..] == [];
    assert SuffixTokens([second], 0) == 200000;
    assert SuffixTokens(ctx.segments, 0) == 200000;
  }

  /** A pasted human turn of ten thousand tokens survives the spine whatever it is worth, and alone is
      held at floor zero. */
  lemma HugePasteIsParked() returns (ctx: Ctx, rows: seq<Row>)
    ensures Indexed(ctx.segments) && DistinctStaged(ctx.staged) && SameMarket(ctx, Pricer())
    ensures |rows| == 1 && rows[0].FromSpine? && IsLive(ctx, rows[0]) && IsFor(ctx, CandidateOf(rows[0]), 0)
    ensures IsHugePaste(ctx.segments[0], ctx.knobs)
    ensures Pricer().Decide(PromptOf(ctx), Candidates(rows), ctx.now) == Hold(WarmDeep)
  {
    var seg := Segment(0, UserTurn, 0, 10000, 1, false, false, true, [0]);
    var s := Staged(0, Decision(ToCompress, [], Some("a pasted log")), BIG, 0.0);
    ctx := Market(seg, [s], []);
    rows := [FromSpine(s)];
    MarketFits(seg, [s], []);
    assert IsHugePaste(seg, ctx.knobs) by { assert ApproxChars(seg) == 35000; }
    hide SpineProposals, Find, OnePerSegment, SuffixTokens, Survivor, IsHugePaste;
    SpineIsSelectStrategy(ctx, 0);
    assert ctx.staged[0] == s;
    PasteSurvives(ctx, s);
    assert Candidates(rows) == [BIG];
    BigIsParked(PromptOf(ctx).tokens);
  }

  lemma PasteSurvives(ctx: Ctx, s: Staged)
    requires Indexed(ctx.segments) && s.segIndex == 0 && |ctx.segments| > 0 && IsHugePaste(ctx.segments[0], ctx.knobs)
    requires s.decision.choice == ToCompress && s.candidate.refId !in ctx.hot && AtLeast(ctx.score(0), ctx.scoreFloor)
    ensures Survivor(ctx, s).Some?
  {
    NotExcluded(ctx);
    hide Excluded, Npv;
  }

  lemma NotExcluded(ctx: Ctx)
    requires Indexed(ctx.segments) && |ctx.segments| > 0 && IsCandidate(ctx.segments[0], ctx.knobs)
    ensures !Excluded(ctx, 0)
  {
  }

  /** A tool pair of ten thousand tokens, staged as a recode, enters the batch without a price test, and
      alone is held at floor zero. */
  lemma RecodeIsParked() returns (ctx: Ctx, rows: seq<Row>)
    ensures Indexed(ctx.segments) && DistinctStaged(ctx.staged) && SameMarket(ctx, Pricer())
    ensures |rows| == 1 && rows[0].FromRecode? && IsLive(ctx, rows[0]) && IsFor(ctx, CandidateOf(rows[0]), 0)
    ensures Pricer().Decide(PromptOf(ctx), Candidates(rows), ctx.now) == Hold(WarmDeep)
  {
    var seg := Segment(0, ToolPair, 0, 10000, 1, false, false, false, [0, 1]);
    ctx := Market(seg, [], [(0, BIG)]);
    rows := [FromRecode(0, BIG)];
    MarketFits(seg, [], [(0, BIG)]);
    assert ctx.recodes[0] == (0, BIG);
    assert Candidates(rows) == [BIG];
    BigIsParked(PromptOf(ctx).tokens);
  }
}
