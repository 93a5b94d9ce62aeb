/** The deterministic recode chain: any sequence of recode, dedup and sequential-diff passes. */
module RecodeChain {
  import opened Basics
  import opened Wire
  import opened Segmentation
  import opened Ledger
  import opened Recode
  import SeqDiff

  const DEDUPE_MIN_CHARS := 1024

  // ---- pass C: a repeated leaf becomes a back-reference ----

  /** The raw leaf pass C keys on, when it is long enough. */
  function DedupKey(body: Body, seg: Segment): Option<string> {
    match RawLeaf(body, seg)
    case Some(text) => if ByteLen(text) >= DEDUPE_MIN_CHARS then Some(text) else None
    case None => None
  }

  /** An empty recode whose marker stands alone, backed by the raw leaf. */
  function DedupProposal(seg: Segment, raw: string): Proposal {
    RecodeProposal(seg, Leaf(raw, EstimateTokens(raw), None), "", Some(raw), "dedup_backref")
  }

  datatype DedupState = DedupState(seen: set<string>, proposals: seq<Proposal>)

  function DedupTo(body: Body, segs: seq<Segment>, ps: seq<Proposal>, n: nat): DedupState
    requires n <= |segs|
  {
    if n == 0 then DedupState({}, ps)
    else
      var st, key := DedupTo(body, segs, ps, n - 1), DedupKey(body, segs[n - 1]);
      if key.None? then st
      else if key.value !in st.seen then st.(seen := st.seen + {key.value})
      else st.(proposals := Upsert(st.proposals, DedupProposal(segs[n - 1], key.value)))
  }

  function DedupAll(body: Body, segs: seq<Segment>, ps: seq<Proposal>): seq<Proposal> {
    DedupTo(body, segs, ps, |segs|).proposals
  }

  method ApplyDedup(body: Body, segs: seq<Segment>, ledger: PlanLedger)
    modifies ledger`proposals
    ensures ledger.proposals == DedupAll(body, segs, old(ledger.proposals))
  {
    var seen: set<string> := {};
    var k := 0;
    while k < |segs|
      invariant k <= |segs|
      invariant DedupState(seen, ledger.proposals) == DedupTo(body, segs, old(ledger.proposals), k)
    {
      hide RawLeaf;
      var seg := segs[k];
      k := k + 1;
      var leaf := RawLeaf(body, seg);
      if leaf.None? || ByteLen(leaf.value) < DEDUPE_MIN_CHARS { continue; }
      if leaf.value !in seen {
        seen := seen + {leaf.value};
      } else {
        var proposal := RefRecode(seg, Leaf(leaf.value, EstimateTokens(leaf.value), None), "", leaf.value,
            "dedup_backref");
        assert proposal == Some(DedupProposal(seg, leaf.value));
        ledger.UpsertProposal(proposal.value);
      }
    }
  }

  /** Whether an earlier segment has the same long raw leaf. */
  ghost predicate Repeats(body: Body, segs: seq<Segment>, k: nat)
    requires k < |segs|
  {
    DedupKey(body, segs[k]).Some? && exists j :: 0 <= j < k && DedupKey(body, segs[j]) == DedupKey(body, segs[k])
  }

  lemma {:induction false} SeenIsEarlierKeys(body: Body, segs: seq<Segment>, ps: seq<Proposal>, n: nat, text: string)
    requires n <= |segs|
    ensures text in DedupTo(body, segs, ps, n).seen <==> exists j :: 0 <= j < n && DedupKey(body, segs[j]) == Some(text)
  {
    hide DedupKey;
    if n > 0 {
      SeenIsEarlierKeys(body, segs, ps, n - 1, text);
    }
  }

  lemma {:induction false} DedupPerSegment(body: Body, segs: seq<Segment>, ps: seq<Proposal>, n: nat, k: nat)
    requires SeqDiff.Indexed(segs) && n <= |segs| && k < |segs|
    ensures Find(DedupTo(body, segs, ps, n).proposals, k) ==
            if k < n && Repeats(body, segs, k) then Some(DedupProposal(segs[k], DedupKey(body, segs[k]).value))
                else Find(ps, k)
  {
    hide DedupKey;
    if n > 0 {
      DedupPerSegment(body, segs, ps, n - 1, k);
      var st, key := DedupTo(body, segs, ps, n - 1), DedupKey(body, segs[n - 1]);
      if key.Some? {
        SeenIsEarlierKeys(body, segs, ps, n - 1, key.value);
        assert key.value in st.seen <==> Repeats(body, segs, n - 1);
        if key.value in st.seen { FindAfterUpsert(st.proposals, DedupProposal(segs[n - 1], key.value), k); }
      }
    }
  }

  /** Pass C replaces exactly the proposals of segments that repeat an earlier raw leaf. */
  lemma DedupReplacesRepeats(body: Body, segs: seq<Segment>, ps: seq<Proposal>, k: nat)
    requires SeqDiff.Indexed(segs) && k < |segs|
    ensures Find(DedupAll(body, segs, ps), k) ==
            if Repeats(body, segs, k) then Some(DedupProposal(segs[k], RawLeaf(body, segs[k]).value)) else Find(ps, k)
  {
    DedupPerSegment(body, segs, ps, |segs|, k);
  }

  // ---- the chain ----

  datatype ChainPass = RecodePass(t: Transform) | DedupPass | DiffPass(render: SeqDiff.Render)

  function PassAll(body: Body, segs: seq<Segment>, pass: ChainPass, ps: seq<Proposal>): seq<Proposal> {
    match pass
    case RecodePass(t) => RecodeAll(body, segs, t, ps)
    case DedupPass => DedupAll(body, segs, ps)
    case DiffPass(render) => SeqDiff.SeqDiffAll(body, segs, render, ps)
  }

  /** The proposals after the first `n` passes. */
  function After(body: Body, segs: seq<Segment>, passes: seq<ChainPass>, n: nat): seq<Proposal>
    requires n <= |passes|
  {
    if n == 0 then [] else PassAll(body, segs, passes[n - 1], After(body, segs, passes, n - 1))
  }

  method RunChain(body: Body, segs: seq<Segment>, passes: seq<ChainPass>, ledger: PlanLedger)
    requires ledger.proposals == []
    modifies ledger`proposals
    ensures ledger.proposals == After(body, segs, passes, |passes|)
  {
    hide RecodeAll, DedupAll, SeqDiff.SeqDiffAll;
    var n := 0;
    while n < |passes|
      invariant n <= |passes|
      invariant ledger.proposals == After(body, segs, passes, n)
    {
      match passes[n] {
        case RecodePass(t) => ApplyPass(body, segs, t, ledger);
        case DedupPass => ApplyDedup(body, segs, ledger);
        case DiffPass(render) => SeqDiff.ApplySeqDiff(body, segs, render, ledger);
      }
      n := n + 1;
    }
  }

  predicate RefBacked(pass: ChainPass) { pass.RecodePass? ==> pass.t.refBacked }

  function Slot(body: Body, segs: seq<Segment>, passes: seq<ChainPass>, n: nat, k: nat): Option<Proposal>
    requires n <= |passes|
  {
    Find(After(body, segs, passes, n), k)
  }

  /** Pass `n` changed segment `k`'s proposal. */
  predicate Fired(body: Body, segs: seq<Segment>, passes: seq<ChainPass>, n: nat, k: nat)
    requires n < |passes|
  {
    Slot(body, segs, passes, n + 1, k) != Slot(body, segs, passes, n, k)
  }

  /** What one pass of the chain may do to a slot that stands on raw leaf `raw`. */
  ghost predicate Advances(seg: Segment, raw: string, pass: ChainPass, slot: Option<Proposal>, slot': Option<Proposal>)
    requires slot.Some? ==> slot.value.strategy.Recode?
  {
    slot' == slot ||
    (slot'.Some? && slot'.value.strategy.Recode? &&
     if pass.DedupPass? then slot' == Some(DedupProposal(seg, raw))
     else
       var text := if slot.Some? then slot.value.strategy.content else raw;
       var carried := if slot.Some? then slot.value.needsRef else None;
       ByteLen(slot'.value.strategy.content) < ByteLen(text) &&
       slot'.value.needsRef == (if !RefBacked(pass) || carried.Some? then carried else Some(text)))
  }

  lemma RecodeAdvances(body: Body, seg: Segment, raw: string, t: Transform, slot: Option<Proposal>)
    requires RawLeaf(body, seg) == Some(raw) && (slot.Some? ==> slot.value.strategy.Recode?)
    ensures Advances(seg, raw, RecodePass(t), slot, SlotStep(body, seg, t, slot))
  {
    hide RawLeaf;
    var leaf := LeafFrom(body, seg, slot);
    assert !Exempt(seg) by { var _ := RawLeaf(body, seg); }
    if leaf.Some? { ProposalIsForSegment(seg, leaf.value, t); }
  }

  lemma DiffAdvances(body: Body, segs: seq<Segment>, render: SeqDiff.Render, ps: seq<Proposal>, k: nat, raw: string)
    requires SeqDiff.Indexed(segs) && k < |segs| && RawLeaf(body, segs[k]) == Some(raw)
    requires Find(ps, k).Some? ==> Find(ps, k).value.strategy.Recode?
    ensures Advances(segs[k], raw, DiffPass(render), Find(ps, k), Find(SeqDiff.SeqDiffAll(body, segs, render, ps), k))
  {
    hide RawLeaf, SeqDiff.StepAt, SeqDiff.ResolveTool, SeqDiff.Diffable, Find;
    assert !Exempt(segs[k]) by { var _ := RawLeaf(body, segs[k]); }
    var slot, slot' := Find(ps, k), Find(SeqDiff.SeqDiffAll(body, segs, render, ps), k);
    if SeqDiff.IsDiff(slot) || !SeqDiff.IsDiff(slot') {
      SeqDiff.OthersAreKept(body, segs, render, ps, k);
    } else {
      var st := SeqDiff.RunTo(body, segs, render, ps, k);
      SeqDiff.LaterStepsKeep(body, segs, render, ps, 0, k, k);
      SeqDiff.LaterStepsKeep(body, segs, render, ps, k + 1, |segs|, k);
      SeqDiff.OwnStep(body, segs, render, k, st);
    }
  }

  lemma PassAdvances(body: Body, segs: seq<Segment>, pass: ChainPass, ps: seq<Proposal>, k: nat, raw: string)
    requires SeqDiff.Indexed(segs) && k < |segs| && RawLeaf(body, segs[k]) == Some(raw)
    requires Find(ps, k).Some? ==> Find(ps, k).value.strategy.Recode?
    ensures Advances(segs[k], raw, pass, Find(ps, k), Find(PassAll(body, segs, pass, ps), k))
  {
    hide RawLeaf;
    match pass {
      case RecodePass(t) =>
        PassActsPerSegment(body, segs, t, ps, k);
        RecodeAdvances(body, segs[k], raw, t, Find(ps, k));
      case DedupPass => DedupReplacesRepeats(body, segs, ps, k);
      case DiffPass(render) => DiffAdvances(body, segs, render, ps, k, raw);
    }
  }

  /** A segment without a raw leaf never gets a proposal. */
  lemma {:induction false} NoLeafNoSlot(body: Body, segs: seq<Segment>, passes: seq<ChainPass>, n: nat, k: nat)
    requires SeqDiff.Indexed(segs) && k < |segs| && n <= |passes| && RawLeaf(body, segs[k]).None?
    ensures Slot(body, segs, passes, n, k) == None
  {
    hide RawLeaf;
    if n > 0 {
      NoLeafNoSlot(body, segs, passes, n - 1, k);
      var ps := After(body, segs, passes, n - 1);
      match passes[n - 1] {
        case RecodePass(t) => PassActsPerSegment(body, segs, t, ps, k);
        case DedupPass => DedupReplacesRepeats(body, segs, ps, k);
        case DiffPass(render) =>
          if SeqDiff.IsDiff(Find(SeqDiff.SeqDiffAll(body, segs, render, ps), k)) {
            var _ := SeqDiff.DiffsHaveBareBases(body, segs, render, ps, k);
          } else {
            SeqDiff.OthersAreKept(body, segs, render, ps, k);
          }
      }
    }
  }

  /** The text a pass reads for segment `k`. */
  function CurrentText(slot: Option<Proposal>, raw: string): string {
    if slot.Some? && slot.value.strategy.Recode? then slot.value.strategy.content else raw
  }

  /** The stored original the passes so far imply: the raw leaf once dedup fired, else the input
      of the first ref-backed pass that fired. */
  function ImpliedRef(
    body: Body, segs: seq<Segment>, passes: seq<ChainPass>, n: nat, k: nat, raw: string): Option<string>
    requires n <= |passes|
  {
    if n == 0 then None
    else
      var earlier := ImpliedRef(body, segs, passes, n - 1, k, raw);
      if !Fired(body, segs, passes, n - 1, k) then earlier
      else if passes[n - 1].DedupPass? then Some(raw)
      else if !RefBacked(passes[n - 1]) || earlier.Some? then earlier
      else Some(CurrentText(Slot(body, segs, passes, n - 1, k), raw))
  }

  lemma {:induction false} SlotFollows(
    body: Body, segs: seq<Segment>, passes: seq<ChainPass>, n: nat, k: nat, raw: string)
    requires SeqDiff.Indexed(segs) && k < |segs| && n <= |passes| && RawLeaf(body, segs[k]) == Some(raw)
    ensures var slot := Slot(body, segs, passes, n, k);
            (slot.Some? ==> slot.value.strategy.Recode? && ByteLen(slot.value.strategy.content) < ByteLen(raw)) &&
            (if slot.Some? then slot.value.needsRef else None) == ImpliedRef(body, segs, passes, n, k, raw)
  {
    hide RawLeaf, PassAll;
    if n > 0 {
      SlotFollows(body, segs, passes, n - 1, k, raw);
      PassAdvances(body, segs, passes[n - 1], After(body, segs, passes, n - 1), k, raw);
      assert ByteLen("") < ByteLen(raw) by { var _ := RawLeaf(body, segs[k]); }
    }
  }

  /** Once dedup has emptied a segment, no later pass changes it. */
  lemma {:induction false} DedupIsFinal(
    body: Body, segs: seq<Segment>, passes: seq<ChainPass>, d: nat, n: nat, k: nat, raw: string)
    requires SeqDiff.Indexed(segs) && k < |segs| && d < n <= |passes| && RawLeaf(body, segs[k]) == Some(raw)
    requires passes[d].DedupPass? && Fired(body, segs, passes, d, k)
    ensures Slot(body, segs, passes, n, k) == Some(DedupProposal(segs[k], raw))
  {
    hide RawLeaf, PassAll;
    if n == d + 1 {
      SlotFollows(body, segs, passes, d, k, raw);
      PassAdvances(body, segs, passes[d], After(body, segs, passes, d), k, raw);
    } else {
      DedupIsFinal(body, segs, passes, d, n - 1, k, raw);
      PassAdvances(body, segs, passes[n - 1], After(body, segs, passes, n - 1), k, raw);
    }
  }

  lemma {:induction false} ImpliedRefPresence(
    body: Body, segs: seq<Segment>, passes: seq<ChainPass>, n: nat, k: nat, raw: string)
    requires n <= |passes|
    ensures ImpliedRef(body, segs, passes, n, k, raw).Some? <==>
            exists m :: 0 <= m < n && Fired(body, segs, passes, m, k) && RefBacked(passes[m])
  {
    hide Fired;
    if n > 0 { ImpliedRefPresence(body, segs, passes, n - 1, k, raw); }
  }

  lemma {:induction false} ImpliedRefIsFirst(
    body: Body, segs: seq<Segment>, passes: seq<ChainPass>, n: nat, k: nat, raw: string, e: nat)
    requires e < n <= |passes|
    requires Fired(body, segs, passes, e, k) && RefBacked(passes[e])
    requires forall m :: 0 <= m < e ==> !(Fired(body, segs, passes, m, k) && RefBacked(passes[m]))
    requires forall m :: 0 <= m < n ==> !(Fired(body, segs, passes, m, k) && passes[m].DedupPass?)
    ensures ImpliedRef(body, segs, passes, n, k, raw) == Some(CurrentText(Slot(body, segs, passes, e, k), raw))
  {
    hide Fired;
    if n == e + 1 {
      ImpliedRefPresence(body, segs, passes, e, k, raw);
    } else {
      ImpliedRefIsFirst(body, segs, passes, n - 1, k, raw, e);
    }
  }

  lemma {:induction false} SlotNeedsFiring(body: Body, segs: seq<Segment>, passes: seq<ChainPass>, n: nat, k: nat)
    requires n <= |passes|
    requires forall m :: 0 <= m < n ==> !Fired(body, segs, passes, m, k)
    ensures Slot(body, segs, passes, n, k) == None
  {
    hide PassAll;
    if n > 0 {
      SlotNeedsFiring(body, segs, passes, n - 1, k);
      assert !Fired(body, segs, passes, n - 1, k);
    }
  }

  /** No pinned or true-human segment is rewritten, and every rewrite is strictly shorter than
      the raw leaf. */
  lemma ChainProposalsShrinkEligibleLeaves(body: Body, segs: seq<Segment>, passes: seq<ChainPass>, k: nat)
    requires SeqDiff.Indexed(segs) && k < |segs|
    ensures var slot := Slot(body, segs, passes, |passes|, k);
            slot.Some? ==>
              !segs[k].pinned && !segs[k].isTrueHuman && RawLeaf(body, segs[k]).Some? && slot.value.strategy.Recode? &&
              ByteLen(slot.value.strategy.content) < ByteLen(RawLeaf(body, segs[k]).value)
  {
    hide RawLeaf;
    match RawLeaf(body, segs[k]) {
      case None => NoLeafNoSlot(body, segs, passes, |passes|, k);
      case Some(raw) => SlotFollows(body, segs, passes, |passes|, k, raw);
    }
  }

  /** A stored original is asked for exactly when a ref-backed pass fired. It is the raw leaf if
      dedup fired, and otherwise what the earliest ref-backed pass that fired had read. */
  lemma ChainStoresTheRightOriginal(body: Body, segs: seq<Segment>, passes: seq<ChainPass>, k: nat)
    requires SeqDiff.Indexed(segs) && k < |segs|
    ensures var slot := Slot(body, segs, passes, |passes|, k);
            (slot.Some? && slot.value.needsRef.Some?) <==>
            exists m :: 0 <= m < |passes| && Fired(body, segs, passes, m, k) && RefBacked(passes[m])
    ensures forall d :: 0 <= d < |passes| && passes[d].DedupPass? && Fired(body, segs, passes, d, k) ==>
              Slot(body, segs, passes, |passes|, k).Some? &&
              Slot(body, segs, passes, |passes|, k).value.needsRef == RawLeaf(body, segs[k])
    ensures forall e ::
              0 <= e < |passes| && Fired(body, segs, passes, e, k) && RefBacked(passes[e]) &&
              (forall m :: 0 <= m < e ==> !(Fired(body, segs, passes, m, k) && RefBacked(passes[m]))) &&
              (forall m :: 0 <= m < |passes| ==> !(Fired(body, segs, passes, m, k) && passes[m].DedupPass?)) ==>
              RawLeaf(body, segs[k]).Some? && Slot(body, segs, passes, |passes|, k).Some? &&
              Slot(body, segs, passes, |passes|, k).value.needsRef ==
                Some(CurrentText(Slot(body, segs, passes, e, k), RawLeaf(body, segs[k]).value))
  {
    hide RawLeaf, PassAll, After, Fired;
    var n := |passes|;
    match RawLeaf(body, segs[k]) {
      case None =>
        forall m | 0 <= m < n ensures !Fired(body, segs, passes, m, k) { NeverFires(body, segs, passes, m, k); }
        SlotNeedsFiring(body, segs, passes, n, k);
      case Some(raw) =>
        SlotFollows(body, segs, passes, n, k, raw);
        ImpliedRefPresence(body, segs, passes, n, k, raw);
        forall d | 0 <= d < n && passes[d].DedupPass? && Fired(body, segs, passes, d, k)
          ensures Slot(body, segs, passes, n, k) == Some(DedupProposal(segs[k], raw))
        {
          DedupIsFinal(body, segs, passes, d, n, k, raw);
        }
        forall e | 0 <= e < n && Fired(body, segs, passes, e, k) && RefBacked(passes[e]) &&
                   (forall m :: 0 <= m < e ==> !(Fired(body, segs, passes, m, k) && RefBacked(passes[m]))) &&
                   (forall m :: 0 <= m < n ==> !(Fired(body, segs, passes, m, k) && passes[m].DedupPass?))
          ensures ImpliedRef(body, segs, passes, n, k, raw) == Some(CurrentText(Slot(body, segs, passes, e, k), raw))
        {
          ImpliedRefIsFirst(body, segs, passes, n, k, raw, e);
        }
    }
  }

  lemma NeverFires(body: Body, segs: seq<Segment>, passes: seq<ChainPass>, m: nat, k: nat)
    requires SeqDiff.Indexed(segs) && k < |segs| && m < |passes| && RawLeaf(body, segs[k]).None?
    ensures !Fired(body, segs, passes, m, k)
  {
    NoLeafNoSlot(body, segs, passes, m, k);
    NoLeafNoSlot(body, segs, passes, m + 1, k);
  }
}
