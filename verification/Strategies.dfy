/** Which strategy the spine leaves for a staged decision, case by case. */
module Strategies {
  import opened Basics
  import opened Segmentation
  import opened Ledger
  import opened Economics
  import opened Ladder

  /** The characters a segment is taken to have: its tokens times 3.5, rounded half up. */
  predicate Chars(seg: Segment, n: nat) { 7 * seg.tokens <= 2 * n <= 7 * seg.tokens + 1 }

  predicate HumanTurn(seg: Segment) { seg.kind == UserTurn && seg.isTrueHuman }

  /** What the candidate is worth by itself. */
  function SingleWorth(ctx: Ctx, c: Candidate): real {
    ctx.turns * c.netRemoved as real * ctx.econ.baseInput * ctx.econ.readMult + c.qualityGain -
    (if ctx.now - ctx.cache.lastRequest >= ctx.cache.ttl then 0.0
     else c.suffixTokens as real * ctx.econ.baseInput * (ctx.econ.writeMult - ctx.econ.readMult) *
          PAlive(ctx.cache, ctx.now))
  }

  /** Each choice has its own strategy. */
  function Carried(d: Decision, refId: string): Option<Strategy> {
    var text := if d.summary.Some? then d.summary.value else "";
    match d.choice
    case ToTruncate => Some(Truncate(d.ranges))
    case ToSummarize => Some(Summarize(text))
    case ToCompress => Some(ReversibleRef(refId, text))
    case ToKeep => None
  }

  /** The entry comes through: its score reaches the floor, its ref is not in flight, and it is either a huge
      human paste to be compressed, or no human turn, not pinned, large enough, not summarized into more
      than it was, and worth more than its floor. */
  predicate ComesThrough(ctx: Ctx, s: Staged, chars: nat) {
    s.segIndex < |ctx.segments| &&
    var seg := ctx.segments[s.segIndex];
    (match ctx.scoreFloor
     case Vetoed => true
     case Scored(f) => ctx.score(s.segIndex).Scored? && ctx.score(s.segIndex).v >= f) &&
    s.candidate.refId !in ctx.hot &&
    if HumanTurn(seg) then chars > ctx.knobs.humanVerbatimMax && s.decision.choice == ToCompress
    else
      !seg.pinned && chars >= ctx.knobs.preGateMinChars && SingleWorth(ctx, s.candidate) > s.npvFloor &&
      (s.decision.choice == ToSummarize && s.decision.summary.Some? ==> |s.decision.summary.value| <= chars)
  }

  lemma SingleWorthIs(ctx: Ctx, c: Candidate)
    ensures SingleWorth(ctx, c) == Npv([c], ctx.cache, ctx.econ, ctx.turns, ctx.now)
  {
    SinglesAre(c);
    hide PAlive, TotalRemoved, TotalQuality, MaxSuffix;
  }

  lemma ExclusionIs(ctx: Ctx, seg: nat)
    requires Indexed(ctx.segments) && seg < |ctx.segments|
    ensures Excluded(ctx, seg) <==> !IsCandidate(ctx.segments[seg], ctx.knobs)
  {
    hide IsCandidate;
  }

  lemma SurvivorIsSpelled(ctx: Ctx, s: Staged, chars: nat)
    requires Indexed(ctx.segments)
    requires s.segIndex < |ctx.segments| ==> Chars(ctx.segments[s.segIndex], chars)
    ensures Survivor(ctx, s) ==
            if ComesThrough(ctx, s, chars) && Carried(s.decision, s.candidate.refId).Some? then
              Some(Proposal(s.segIndex, Carried(s.decision, s.candidate.refId).value, Some(s.candidate.refId), None,
                            s.candidate.netRemoved, "ladder_select"))
            else None
  {
    hide Excluded, Npv, SingleWorth;
    SingleWorthIs(ctx, s.candidate);
    if s.segIndex < |ctx.segments| {
      ExclusionIs(ctx, s.segIndex);
      assert ApproxChars(ctx.segments[s.segIndex]) == chars;
    }
  }

  /** For every staged entry, the spine proposes exactly the strategy of its choice when it comes through,
      and nothing otherwise. */
  lemma StrategyIff(ctx: Ctx, k: nat, chars: nat)
    requires Indexed(ctx.segments) && DistinctStaged(ctx.staged) && k < |ctx.staged|
    requires var s := ctx.staged[k]; s.segIndex < |ctx.segments| ==> Chars(ctx.segments[s.segIndex], chars)
    ensures var s := ctx.staged[k];
            Find(SpineProposals(ctx), s.segIndex) ==
            if ComesThrough(ctx, s, chars) && Carried(s.decision, s.candidate.refId).Some? then
              Some(Proposal(s.segIndex, Carried(s.decision, s.candidate.refId).value, Some(s.candidate.refId), None,
                            s.candidate.netRemoved, "ladder_select"))
            else None
  {
    hide Survivor, ComesThrough, Carried, SpineProposals, Find, OnePerSegment;
    SpineIsSelectStrategy(ctx, ctx.staged[k].segIndex);
    SurvivorIsSpelled(ctx, ctx.staged[k], chars);
  }

  /** Offers go by falling score, a veto last, and among equals by segment; a segment without a score counts
      as zero. */
  lemma OfferOrder(scores: seq<Score>, staged: seq<Staged>, i: nat, j: nat)
    requires i < j < |SortByScore(scores, staged)|
    ensures multiset(SortByScore(scores, staged)) == multiset(staged)
    ensures var a, b := SortByScore(scores, staged)[i].segIndex, SortByScore(scores, staged)[j].segIndex;
            match (if a < |scores| then scores[a] else Scored(0.0), if b < |scores| then scores[b] else Scored(0.0))
            case (Scored(x), Scored(y)) => x > y || (x == y && a <= b)
            case (Scored(_), Vetoed) => true
            case (Vetoed, Scored(_)) => false
            case (Vetoed, Vetoed) => a <= b
  {
    OffersAreRanked(scores, staged);
    var sorted := SortByScore(scores, staged);
    hide SortByScore;
    assert Precedes(scores, sorted[i], sorted[j]);
  }

  // ---- the audit trail ----

  /** `after` is `before` and then one note of that author and text per segment named. */
  ghost predicate Noted(before: seq<Provenance>, after: seq<Provenance>, segs: seq<nat>, author: string, note: string) {
    |after| == |before| + |segs| && before <= after &&
    forall k :: |before| <= k < |after| ==> after[k] == Provenance(segs[k - |before|], author, note)
  }

  /** The veto notes each segment it removes, and the hot-ref filter each proposal it drops. */
  lemma RemovalsAreNoted(ctx: Ctx, plan: Plan)
    ensures Noted(plan.provenance, GatePass(ctx, plan).provenance, VetoList(ctx, plan.proposals, |ctx.staged|),
                  "economics_gate", "economics veto")
    ensures var dropped := Retain(plan.proposals, Hot(ctx));
            Noted(plan.provenance, CoolPass(ctx, plan).provenance,
                  seq(|dropped|, k requires 0 <= k < |dropped| => dropped[k].segIndex), "anti_thrash",
                      "dropped: ref hot")
    ensures forall i :: i in VetoList(ctx, plan.proposals, |ctx.staged|) <==> VetoedSegment(ctx, plan.proposals, i)
  {
    hide Retain, Vetoes;
  }

  /** The salience gate's notes are about human turns no longer than the verbatim limit. */
  lemma {:induction false} IneligibleAreNoted(ctx: Ctx, n: nat)
    requires n <= |ctx.segments|
    ensures forall k :: 0 <= k < |SalienceNotes(ctx, n)| ==>
              SalienceNotes(ctx, n)[k].author == "salience_gate" &&
              SalienceNotes(ctx, n)[k].note == "ineligible: pinned" &&
              exists i :: 0 <= i < n && ctx.segments[i].index == SalienceNotes(ctx, n)[k].segIndex &&
                          HumanTurn(ctx.segments[i]) && 7 * ctx.segments[i].tokens <= 2 * ctx.knobs.humanVerbatimMax
  {
    if n > 0 { IneligibleAreNoted(ctx, n - 1); }
  }
}
