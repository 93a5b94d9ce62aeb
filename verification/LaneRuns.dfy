/** What a commitment binds: the bytes a committed leaf shows in every later request, and the older
    copies of it that follow. */
module LaneRuns {
  import opened Basics
  import opened Wire
  import opened Segmentation
  import opened Recode
  import opened FastLane
  import opened Targets
  import opened Intercept
  import opened Session

  // ---- a leaf is what it was when the transcript grows ----

  lemma {:induction false} UserBlocksAreStable(sources: seq<nat>, msgs: seq<Message>, more: seq<Message>)
    requires msgs <= more && forall k :: 0 <= k < |sources| ==> sources[k] < |msgs|
    ensures UserBlocks(msgs, sources) == UserBlocks(more, sources)
  {
    if sources != [] {
      assert msgs[sources[0]] == more[sources[0]];
      UserBlocksAreStable(sources[1..], msgs, more);
    }
  }

  lemma {:induction false} ResultTargetsAreStable(old': Body, new': Body, sources: seq<nat>)
    requires Grows(old', new') && forall k :: 0 <= k < |sources| ==> sources[k] < |old'.messages|
    ensures ResultTargets(old', sources) == ResultTargets(new', sources)
  {
    hide BlockTargets;
    if sources != [] {
      assert old'.messages[sources[0]] == new'.messages[sources[0]];
      ResultTargetsAreStable(old', new', sources[1..]);
    }
  }

  lemma PairIsStable(old': Body, new': Body, seg: Segment)
    requires Grows(old', new') && seg.kind == ToolPair
    requires forall k :: 0 <= k < |seg.sources| ==> seg.sources[k] < |old'.messages|
    ensures RawLeaf(old', seg) == RawLeaf(new', seg) && SquashTargets(old', seg) == SquashTargets(new', seg) &&
            Payload(seg, old') == Payload(seg, new')
  {
    UserBlocksAreStable(seg.sources, old'.messages, new'.messages);
    ResultTargetsAreStable(old', new', seg.sources);
    PayloadIsStable(seg.sources, old'.messages, new'.messages);
    hide UserBlocks, ResultTargets, PayloadOf, ResultTexts, LargeResults;
  }

  // ---- what puts a segment in the lane ----

  /** The lane's rendering of a segment, whatever was sent before. */
  function LaneRenders(body: Body, seg: Segment, w: World): Option<seq<Targets.Rendered>> {
    match FastLaneLeaf(body, seg)
    case None => None
    case Some(leaf) =>
      if ByteLen(leaf) > FAST_LANE_MAX_LEAF || FastLaneClean(leaf, w.minify).None? then None
      else
        var rs := LaneRendering(SquashTargets(body, seg), FastLaneClean(leaf, w.minify).value, w.printer);
        if rs == Some([]) then None else rs
  }

  /** A segment enters the lane exactly when it renders there and its key is committed, or, if it is not,
      the window is open, no message of it lies below the floor and nothing is staged under its key. */
  lemma LaneForIff(body: Body, segs: seq<Segment>, k: nat, inputs: Inputs, w: World)
    requires k < |segs|
    ensures var key := KeyOf(body, segs[k], w);
            LaneFor(body, segs, k, inputs, w).Some? <==>
            LaneRenders(body, segs[k], w).Some? &&
            (key in inputs.fastLane ||
             (!inputs.windowClosed && ProvablyUncached(segs[k], inputs.lastMessageCount) &&
              !(inputs.staged.Some? && key in inputs.staged.value)))
    ensures LaneFor(body, segs, k, inputs, w).Some? ==>
              var key := KeyOf(body, segs[k], w);
              LaneFor(body, segs, k, inputs, w).value ==
              LaneEntry(k, key, key !in inputs.fastLane, LaneRenders(body, segs[k], w).value)
  {
    hide FastLaneLeaf, FastLaneClean, LaneRendering, SquashTargets, ProvablyUncached, KeyOf;
  }

  /** A segment in the lane is an unpinned tool pair, so it is not the last one. */
  lemma LaneSegmentIsStable(old': Body, new': Body, k: nat, w: World)
    requires Grows(old', new') && k < |Segments(old')| && LaneRenders(old', Segments(old')[k], w).Some?
    ensures k < |Segments(new')| && Segments(new')[k] == Segments(old')[k]
    ensures LaneRenders(new', Segments(new')[k], w) == LaneRenders(old', Segments(old')[k], w)
    ensures KeyOf(new', Segments(new')[k], w) == KeyOf(old', Segments(old')[k], w)
  {
    hide FastLaneClean, LaneRendering, MessageSegments, Preamble, PreambleBytes;
    var seg := Segments(old')[k];
    assert seg.kind == ToolPair && !seg.pinned by { hide SquashTargets, Segments; }
    if k == |Segments(old')| - 1 { assert false; }
    SegmentsAreStable(old', new', k);
    SourcesInRange(old', k);
    hide Segments;
    PairIsStable(old', new', seg);
    hide RawLeaf, SquashTargets;
  }

  /** A leaf in the lane renders the same bytes at the same places in every grown body, as long as its
      key is committed. */
  lemma LaneIsStable(old': Body, new': Body, k: nat, inputs: Inputs, inputs': Inputs, w: World)
    requires Grows(old', new') && k < |Segments(old')| && LaneFor(old', Segments(old'), k, inputs, w).Some?
    requires KeyOf(old', Segments(old')[k], w) in inputs'.fastLane
    ensures k < |Segments(new')|
    ensures var e := LaneFor(old', Segments(old'), k, inputs, w).value;
            LaneFor(new', Segments(new'), k, inputs', w) == Some(LaneEntry(k, e.key, false, e.rendered))
  {
    hide LaneFor, LaneRenders, KeyOf, Segments, ProvablyUncached;
    LaneForIff(old', Segments(old'), k, inputs, w);
    LaneSegmentIsStable(old', new', k, w);
    LaneForIff(new', Segments(new'), k, inputs', w);
  }

  // ---- over runs ----

  ghost predicate Releases(p: Proxy, turn: Turn, key: Key) {
    turn.Inspected? && key in Uncommitted(OutcomeOf(SessionFor(p), turn.body, turn.w, turn.choice, turn.failsOpen))
  }

  /** A committed key stays committed until a turn releases it. */
  lemma {:induction false} CommittedStays(p: Proxy, turns: seq<Turn>, key: Key)
    requires key in SessionFor(p).fastLane
    requires forall t :: 0 <= t < |turns| ==> !Releases(Run(p, turns[..t]), turns[t], key)
    ensures key in SessionFor(Run(p, turns)).fastLane
  {
    if turns != [] {
      var init, last := turns[..|turns| - 1], turns[|turns| - 1];
      forall t | 0 <= t < |init| ensures !Releases(Run(p, init[..t]), init[t], key) {
        assert init[..t] == turns[..t] && init[t] == turns[t];
      }
      CommittedStays(p, init, key);
      StepKeeps(Run(p, init), last, key);
      hide Step;
    }
  }

  lemma StepKeeps(p: Proxy, turn: Turn, key: Key)
    requires key in SessionFor(p).fastLane && !Releases(p, turn, key)
    ensures key in SessionFor(Step(p, turn)).fastLane
  {
    hide OutcomeOf, InspectedEgress;
  }

  lemma CommitLands(p: Proxy, turn: Turn, key: Key)
    requires turn.Inspected? && key in Committed(OutcomeOf(SessionFor(p), turn.body, turn.w, turn.choice,
             turn.failsOpen))
    ensures key in SessionFor(Step(p, turn)).fastLane
  {
    hide Intercept.Intercept, InspectedEgress;
    if turn.body.Some? { CommitmentDeltas(turn.body.value, InputsOf(SessionFor(p)), turn.w, turn.choice); }
  }

  /** From the turn that commits a leaf on, until its key is released, every grown request renders that
      leaf in the lane with the same bytes at the same places. */
  lemma CommittedLeafRendersTheSame(p: Proxy, first: Turn, turns: seq<Turn>, later: Body, key: Key)
    returns (k: nat)
    requires first.Inspected? && first.body.Some? && Grows(first.body.value, later)
    requires key in Committed(OutcomeOf(SessionFor(p), first.body, first.w, first.choice, first.failsOpen))
    requires forall t :: 0 <= t < |turns| ==> !Releases(Run(Step(p, first), turns[..t]), turns[t], key)
    ensures k < |Segments(first.body.value)| && k < |Segments(later)|
    ensures var e := LaneFor(first.body.value, Segments(first.body.value), k, InputsOf(SessionFor(p)), first.w);
            e.Some? && e.value.key == key && e.value.isNew &&
            LaneFor(later, Segments(later), k, InputsOf(SessionFor(Run(Step(p, first), turns))), first.w) ==
            Some(LaneEntry(k, key, false, e.value.rendered))
  {
    hide Intercept.Intercept, Segments, LaneFor, Step, Run, KeyOf, Releases;
    var body, inputs := first.body.value, InputsOf(SessionFor(p));
    k := CommittedEntry(body, inputs, first.w, first.choice, key);
    CommitLands(p, first, key);
    CommittedStays(Step(p, first), turns, key);
    LaneForIff(body, Segments(body), k, inputs, first.w);
    LaneIsStable(body, later, k, inputs, InputsOf(SessionFor(Run(Step(p, first), turns))), first.w);
  }

  lemma CommittedEntry(body: Body, inputs: Inputs, w: World, choice: Choice, key: Key) returns (k: nat)
    requires key in Committed(Intercept.Intercept(body, inputs, w, choice))
    ensures k < |Segments(body)|
    ensures var e := LaneFor(body, Segments(body), k, inputs, w); e.Some? && e.value.key == key && e.value.isNew
  {
    hide LaneFor, Rewrite.Splice, Standing, Flatten, Rewrite.KeptHints, Rewrite.CheckPairsAndRoles;
    var segs := Segments(body);
    hide Segments;
    var lane, base := LaneEntries(body, segs, |segs|, inputs, w), BaseFor(body, inputs, w, choice).rendered;
    FreshKeysMembers(Standing(lane, base), key);
    var e :| e in Standing(lane, base) && e.isNew && e.key == key;
    StandingMembers(lane, base, e);
    LaneEntryOrigin(body, segs, |segs|, inputs, w, e);
    k := e.seg;
  }

  /** The price of keying commitments by payload: from the turn after the commitment on, every segment with
      that payload that renders in the lane is in it, however long ago it was sent. */
  lemma OlderCopiesFollow(p: Proxy, first: Turn, turns: seq<Turn>, later: Body, j: nat, key: Key)
    requires first.Inspected? && key in Committed(OutcomeOf(SessionFor(p), first.body, first.w, first.choice,
             first.failsOpen))
    requires forall t :: 0 <= t < |turns| ==> !Releases(Run(Step(p, first), turns[..t]), turns[t], key)
    requires j < |Segments(later)| && KeyOf(later, Segments(later)[j], first.w) == key
    ensures var inputs := InputsOf(SessionFor(Run(Step(p, first), turns)));
            LaneFor(later, Segments(later), j, inputs, first.w) ==
            match LaneRenders(later, Segments(later)[j], first.w)
            case Some(rs) => Some(LaneEntry(j, key, false, rs))
            case None => None
  {
    hide OutcomeOf, Segments, LaneFor, Step, Run, KeyOf, Releases, LaneRenders, ProvablyUncached;
    CommitLands(p, first, key);
    CommittedStays(Step(p, first), turns, key);
    LaneForIff(later, Segments(later), j, InputsOf(SessionFor(Run(Step(p, first), turns))), first.w);
  }

  /** A segment with a message below the floor is in the lane exactly when it renders there and its payload
      has been committed, by itself while it was fresh or by a later copy. */
  lemma SentSegmentInLaneIff(body: Body, k: nat, inputs: Inputs, w: World)
    requires k < |Segments(body)| && !ProvablyUncached(Segments(body)[k], inputs.lastMessageCount)
    ensures LaneFor(body, Segments(body), k, inputs, w).Some? <==>
            LaneRenders(body, Segments(body)[k], w).Some? && KeyOf(body, Segments(body)[k], w) in inputs.fastLane
  {
    hide LaneFor, LaneRenders, KeyOf, Segments, ProvablyUncached;
    LaneForIff(body, Segments(body), k, inputs, w);
  }
}
