/** What the back-references of staged recodes point at. */
module Backrefs {
  import opened Basics
  import opened Wire
  import opened Segmentation
  import opened Targets
  import opened Marker
  import opened Render
  import Ledger
  import Recode
  import RecodeChain
  import SeqDiff
  import Markup

  // ---- which rendered back-references have an anchor ----

  /** The text tells the model that an earlier message shows the same. */
  predicate IsBackref(p: Placed) {
    match p.entry.recode
    case Some(r) => r == StagedRecode("", Some(p.entry.refId), Some(RenderBackref(p.entry.refId))) &&
        p.text == RecodeText(r)
    case None => p.text == RenderBackref(p.entry.refId)
  }

  /** A full placeholder of the same ref further up. */
  ghost predicate HasAnchor(placed: seq<Placed>, i: nat)
    requires i < |placed|
  {
    exists h :: 0 <= h < i && ShowsInFull(placed[h]) && placed[h].entry.refId == placed[i].entry.refId
  }

  ghost predicate Keyed(plan: Plan) { forall key :: key in plan ==> plan[key].refId == key }

  /** Every live entry is what the plan holds for its segment's payload. */
  ghost predicate FromPlan(plan: Plan, body: Body, segs: seq<Segment>, live: seq<(nat, Entry)>, address: Address) {
    forall j :: 0 <= j < |live| && live[j].0 < |segs| ==>
      var key := address(Payload(segs[live[j].0], body)); key in plan && live[j].1 == plan[key]
  }

  lemma HeadsDiffer(e: Entry)
    ensures PlaceholderOf(e) != RenderBackref(e.refId)
  {
    hide Advice, Decimal;
    assert PLACEHOLDER_HEAD[1] == 'c' && BACKREF_HEAD[1] == 's';
    assert PlaceholderOf(e)[1] == PLACEHOLDER_HEAD[1] by {
      assert RenderHeader(e.refId, e.tokens, e.byteLen)[1] == PLACEHOLDER_HEAD[1];
    }
    assert RenderBackref(e.refId)[1] == BACKREF_HEAD[1];
  }

  lemma PlacedFromPlan(plan: Plan, body: Body, segs: seq<Segment>, live: seq<(nat, Entry)>, address: Address, p: Placed)
    requires Keyed(plan) && FromPlan(plan, body, segs, live, address) && Sourced(body, segs, live, p)
    ensures p.entry.refId in plan && p.entry == plan[p.entry.refId]
  {
    hide SquashTargets, PlaceholderOf, RenderBackref, RecodeText, Payload;
    var j :| 0 <= j < |live| && live[j] == (p.seg, p.entry);
  }

  /** A rendered back-reference has an anchor exactly when its plan entry is not a recode. */
  lemma BackrefAnchoredIff(
    plan: Plan, body: Body, segs: seq<Segment>, live: seq<(nat, Entry)>, address: Address, i: nat)
    requires Keyed(plan) && FromPlan(plan, body, segs, live, address) &&
             RenderTo(body, segs, live, |live|, address).Some?
    requires i < |RenderTo(body, segs, live, |live|, address).value.placed|
    requires IsBackref(RenderTo(body, segs, live, |live|, address).value.placed[i])
    ensures var placed := RenderTo(body, segs, live, |live|, address).value.placed;
            HasAnchor(placed, i) <==> placed[i].entry.recode.None?
  {
    hide RenderTo, PlaceholderOf, RenderBackref, RecodeText, SquashTargets, Payload, Sourced;
    var pen := RenderTo(body, segs, live, |live|, address).value;
    var placed := pen.placed;
    RenderSourced(body, segs, live, |live|, address);
    PlacedFromPlan(plan, body, segs, live, address, placed[i]);
    if placed[i].entry.recode.None? {
      BackrefsHaveAnchors(body, segs, live, |live|, address);
      HeadsDiffer(placed[i].entry);
      AnchoredMeans(segs, pen, i);
    } else {
      forall h | 0 <= h < i && placed[h].entry.refId == placed[i].entry.refId ensures !ShowsInFull(placed[h]) {
        assert placed[h] in placed;
        PlacedFromPlan(plan, body, segs, live, address, placed[h]);
      }
    }
  }

  lemma AnchoredMeans(segs: seq<Segment>, pen: Pen, i: nat)
    requires Faithful(segs, pen) && i < |pen.placed| && pen.placed[i].entry.recode.None? && !ShowsInFull(pen.placed[i])
    ensures HasAnchor(pen.placed, i)
  {
    hide PlaceholderOf, RenderBackref;
    assert Anchored(segs, pen.placed, i);
  }

  // ---- what the recode chain hands to staging ----

  function ChainAnswer(slot: Option<Ledger.Proposal>): Option<(string, bool)> {
    if slot.Some? && slot.value.strategy.Recode?
        then Some((slot.value.strategy.content, slot.value.needsRef.Some?)) else None
  }

  ghost predicate FromChain(
    body: Body, segs: seq<Segment>, passes: seq<RecodeChain.ChainPass>, advice: nat -> Answers)
  {
    forall k :: 0 <= k < |segs| ==>
      advice(k).recode == ChainAnswer(RecodeChain.Slot(body, segs, passes, |passes|, k))
  }

  /** The original a proposal carries only decides whether a marker is due: what is staged is addressed
      by the whole payload, and it has a marker exactly when a ref-backed pass fired. */
  lemma StagedRecodeIsThePayload(
    body: Body, segs: seq<Segment>, passes: seq<RecodeChain.ChainPass>, advice: nat -> Answers, address: Address,
    estimate: string -> nat, k: nat)
    requires SeqDiff.Indexed(segs) && FromChain(body, segs, passes, advice) && k < |segs|
    requires var e := EntryFor(Payload(segs[k], body), advice(k), address, estimate); e.Some? && e.value.recode.Some?
    ensures var e := EntryFor(Payload(segs[k], body), advice(k), address, estimate).value;
            e.refId == address(Payload(segs[k], body)) && e.byteLen == ByteLen(Payload(segs[k], body)) &&
            (e.recode.value.marker.Some? <==>
             exists m :: 0 <= m < |passes| && RecodeChain.Fired(body, segs, passes, m, k) &&
                 RecodeChain.RefBacked(passes[m])) &&
            (e.recode.value.refId.Some? <==> e.recode.value.marker.Some?)
  {
    hide RecodeChain.Slot, RecodeChain.Fired, RecodeMarker, PrefersRecode;
    RecodeChain.ChainStoresTheRightOriginal(body, segs, passes, k);
  }

  /** An earlier segment has the same raw leaf. */
  ghost predicate SaysTheSame(body: Body, segs: seq<Segment>, k: nat)
    requires k < |segs|
  {
    Recode.RawLeaf(body, segs[k]).Some? &&
    exists j :: 0 <= j < k && Recode.RawLeaf(body, segs[j]) == Recode.RawLeaf(body, segs[k])
  }

  function Bare(id: RefId): Option<StagedRecode> { Some(StagedRecode("", Some(id), Some(RenderBackref(id)))) }

  /** A bare back-reference is staged exactly when the chain emptied the leaf and a ref-backed pass fired.
      When that was dedup, an earlier segment of the incoming body says the same in at least 1024 bytes;
      when no earlier segment does, it was a pass that compares nothing. */
  lemma BareBackrefCause(
    body: Body, segs: seq<Segment>, passes: seq<RecodeChain.ChainPass>, advice: nat -> Answers, address: Address,
    estimate: string -> nat, k: nat)
    requires SeqDiff.Indexed(segs) && FromChain(body, segs, passes, advice) && k < |segs|
    requires !advice(k).gated && !advice(k).storeFails && Payload(segs[k], body) != ""
    ensures var e := EntryFor(Payload(segs[k], body), advice(k), address, estimate);
            (e.Some? && e.value.recode == Bare(address(Payload(segs[k], body)))) <==> Emptied(body, segs, passes, k)
    ensures Emptied(body, segs, passes, k) && DedupFired(body, segs, passes, k) ==>
              SaysTheSame(body, segs, k) && ByteLen(Recode.RawLeaf(body, segs[k]).value) >= RecodeChain.DEDUPE_MIN_CHARS
    ensures Emptied(body, segs, passes, k) && !SaysTheSame(body, segs, k) ==>
              exists m :: 0 <= m < |passes| && !passes[m].DedupPass? && RecodeChain.RefBacked(passes[m]) &&
                          RecodeChain.Fired(body, segs, passes, m, k)
  {
    hide RecodeChain.PassAll, Recode.RawLeaf, RenderBackref, PlaceholderOf, Payload, SaysTheSame;
    RecodeChain.ChainStoresTheRightOriginal(body, segs, passes, k);
    forall d | 0 <= d < |passes| && passes[d].DedupPass? && RecodeChain.Fired(body, segs, passes, d, k)
      ensures SaysTheSame(body, segs, k) && ByteLen(Recode.RawLeaf(body, segs[k]).value) >= RecodeChain.DEDUPE_MIN_CHARS
    {
      DedupFiresOnRepeats(body, segs, passes, d, k);
    }
    hide RecodeChain.Slot, RecodeChain.Fired;
  }

  /** The chain leaves nothing of the leaf and wants its original stored. */
  ghost predicate Emptied(body: Body, segs: seq<Segment>, passes: seq<RecodeChain.ChainPass>, k: nat) {
    ChainAnswer(RecodeChain.Slot(body, segs, passes, |passes|, k)) == Some(("", true))
  }

  ghost predicate DedupFired(body: Body, segs: seq<Segment>, passes: seq<RecodeChain.ChainPass>, k: nat) {
    exists d :: 0 <= d < |passes| && passes[d].DedupPass? && RecodeChain.Fired(body, segs, passes, d, k)
  }

  lemma DedupFiresOnRepeats(body: Body, segs: seq<Segment>, passes: seq<RecodeChain.ChainPass>, d: nat, k: nat)
    requires SeqDiff.Indexed(segs) && k < |segs| && d < |passes| && passes[d].DedupPass?
    requires RecodeChain.Fired(body, segs, passes, d, k)
    ensures SaysTheSame(body, segs, k) && ByteLen(Recode.RawLeaf(body, segs[k]).value) >= RecodeChain.DEDUPE_MIN_CHARS
  {
    hide Recode.RawLeaf, RecodeChain.DedupAll;
    RecodeChain.DedupReplacesRepeats(body, segs, RecodeChain.After(body, segs, passes, d), k);
    assert RecodeChain.Repeats(body, segs, k);
    var j :| 0 <= j < k && RecodeChain.DedupKey(body, segs[j]) == RecodeChain.DedupKey(body, segs[k]);
  }

  // ---- what staging leaves of the text a back-reference repeats ----

  /** Every segment the plan holds and that offers a target, in order. */
  function LiveRows(plan: Plan, body: Body, segs: seq<Segment>, n: nat, address: Address): seq<(nat, Entry)>
    requires n <= |segs|
  {
    if n == 0 then []
    else
      var rest, key := LiveRows(plan, body, segs, n - 1, address), address(Payload(segs[n - 1], body));
      if key in plan && SquashTargets(body, segs[n - 1]) != [] then rest + [(n - 1, plan[key])] else rest
  }

  predicate IsRow(plan: Plan, body: Body, segs: seq<Segment>, address: Address, row: (nat, Entry)) {
    row.0 < |segs| && address(Payload(segs[row.0], body)) in plan &&
    row.1 == plan[address(Payload(segs[row.0], body))] && SquashTargets(body, segs[row.0]) != []
  }

  lemma {:induction false} RowsAreRows(plan: Plan, body: Body, segs: seq<Segment>, n: nat, address: Address)
    requires n <= |segs|
    ensures forall j :: 0 <= j < |LiveRows(plan, body, segs, n, address)| ==>
              IsRow(plan, body, segs, address, LiveRows(plan, body, segs, n, address)[j])
  {
    hide SquashTargets, Payload;
    if n > 0 { RowsAreRows(plan, body, segs, n - 1, address); }
  }

  ghost predicate HasRow(live: seq<(nat, Entry)>, k: nat) { exists i :: 0 <= i < |live| && live[i].0 == k }

  lemma HasRowPush(live: seq<(nat, Entry)>, row: (nat, Entry), k: nat)
    ensures HasRow(live + [row], k) <==> HasRow(live, k) || row.0 == k
  {
    var all := live + [row];
    if HasRow(live, k) {
      var i :| 0 <= i < |live| && live[i].0 == k;
      assert all[i] == live[i];
    }
    if row.0 == k { assert all[|live|].0 == k; }
  }

  lemma {:induction false} RowOf(plan: Plan, body: Body, segs: seq<Segment>, n: nat, address: Address, k: nat)
    requires n <= |segs|
    ensures HasRow(LiveRows(plan, body, segs, n, address), k) <==>
            k < n && address(Payload(segs[k], body)) in plan && SquashTargets(body, segs[k]) != []
  {
    hide SquashTargets, Payload, HasRow;
    if n == 0 {
      NoRows(k);
    } else {
      RowOf(plan, body, segs, n - 1, address, k);
      var key := address(Payload(segs[n - 1], body));
      if key in plan { HasRowPush(LiveRows(plan, body, segs, n - 1, address), (n - 1, plan[key]), k); }
    }
  }

  lemma NoRows(k: nat)
    ensures !HasRow([], k)
  {
  }

  ghost predicate Replaced(placed: seq<Placed>, j: nat) { exists i :: 0 <= i < |placed| && placed[i].seg == j }

  lemma {:induction false} WriteAllGrows(k: nat, seg: Segment, e: Entry, key: RefId, ts: seq<Target>, n: nat, pen: Pen)
    requires n <= |ts|
    ensures var out := WriteAll(k, seg, e, key, ts, n, pen).placed;
            |out| == |pen.placed| + n && pen.placed <= out &&
            forall i :: |pen.placed| <= i < |out| ==> out[i].seg == k
  {
    hide PlaceholderOf, RenderBackref, RecodeText, BackrefAllowed;
    if n > 0 { WriteAllGrows(k, seg, e, key, ts, n - 1, pen); }
  }

  lemma ReplacedAfter(k: nat, seg: Segment, e: Entry, key: RefId, ts: seq<Target>, pen: Pen, j: nat)
    requires ts != []
    ensures Replaced(WriteAll(k, seg, e, key, ts, |ts|, pen).placed, j) <==> Replaced(pen.placed, j) || j == k
  {
    WriteAllGrows(k, seg, e, key, ts, |ts|, pen);
    hide WriteAll;
    var out := WriteAll(k, seg, e, key, ts, |ts|, pen).placed;
    if Replaced(pen.placed, j) {
      var i :| 0 <= i < |pen.placed| && pen.placed[i].seg == j;
      assert out[i] == pen.placed[i];
    }
    if j == k { assert out[|pen.placed|].seg == k; }
    if Replaced(out, j) && j != k {
      var i :| 0 <= i < |out| && out[i].seg == j;
      assert out[i] == pen.placed[i];
    }
  }

  /** Rendering replaces exactly the live segments. */
  lemma {:induction false} ReplacedIffLive(
    body: Body, segs: seq<Segment>, live: seq<(nat, Entry)>, n: nat, address: Address, j: nat)
    requires n <= |live| && RenderTo(body, segs, live, n, address).Some?
    ensures Replaced(RenderTo(body, segs, live, n, address).value.placed, j) <==> HasRow(live[..n], j)
  {
    hide SquashTargets, WriteAll, Payload, RenderTo;
    RenderStep(body, segs, live, n, address);
    if n > 0 {
      var (k, e) := live[n - 1];
      ReplacedIffLive(body, segs, live, n - 1, address, j);
      ReplacedAfter(k, segs[k], e, address(Payload(segs[k], body)), SquashTargets(body, segs[k]),
                    RenderTo(body, segs, live, n - 1, address).value, j);
      assert live[..n] == live[..n - 1] + [live[n - 1]];
      HasRowPush(live[..n - 1], live[n - 1], j);
      hide Replaced, HasRow;
    }
  }

  /** Some segment of the first `n` with this address has an entry made for it. */
  ghost predicate Staged(
    body: Body, segs: seq<Segment>, n: nat, advice: nat -> Answers, address: Address, estimate: string -> nat,
        key: RefId)
    requires n <= |segs|
  {
    exists i :: 0 <= i < n && address(Payload(segs[i], body)) == key &&
                EntryFor(Payload(segs[i], body), advice(i), address, estimate).Some?
  }

  lemma {:induction false} InPlanIff(
    body: Body, segs: seq<Segment>, n: nat, advice: nat -> Answers, address: Address, estimate: string -> nat,
        key: RefId)
    requires n <= |segs|
    ensures key in PlanTo(body, segs, n, advice, address, estimate) <==>
            Staged(body, segs, n, advice, address, estimate, key)
  {
    hide EntryFor, Payload;
    if n > 0 { InPlanIff(body, segs, n - 1, advice, address, estimate, key); }
  }

  /** An earlier segment shows the same leaf and is left as it is. */
  ghost predicate TextStays(body: Body, segs: seq<Segment>, placed: seq<Placed>, k: nat)
    requires k < |segs|
  {
    exists j :: 0 <= j < k && SameLeaf(body, segs, j, k) && !Replaced(placed, j)
  }

  predicate SameLeaf(body: Body, segs: seq<Segment>, j: nat, k: nat)
    requires j < |segs| && k < |segs|
  {
    Recode.RawLeaf(body, segs[k]).Some? && Recode.RawLeaf(body, segs[j]) == Recode.RawLeaf(body, segs[k])
  }

  /** Nothing was staged under the segment's address, or it offers no target. */
  ghost predicate LeftAlone(
    body: Body, segs: seq<Segment>, advice: nat -> Answers, address: Address, estimate: string -> nat, j: nat)
    requires j < |segs|
  {
    SquashTargets(body, segs[j]) == [] ||
    !Staged(body, segs, |segs|, advice, address, estimate, address(Payload(segs[j], body)))
  }

  /** When what a back-reference says is true of the request it goes out in: with every staged segment
      rendered, an earlier segment still shows the same leaf exactly when some earlier segment of that leaf
      offers no target or shares its address with none that anything was staged for. */
  lemma EarlierTextStaysIff(
    body: Body, segs: seq<Segment>, advice: nat -> Answers, address: Address, estimate: string -> nat, k: nat)
    requires k < |segs|
    ensures var plan := PlanTo(body, segs, |segs|, advice, address, estimate);
            var live := LiveRows(plan, body, segs, |segs|, address);
            Keyed(plan) && FromPlan(plan, body, segs, live, address) &&
            RenderTo(body, segs, live, |live|, address).Some? &&
            (TextStays(body, segs, RenderTo(body, segs, live, |live|, address).value.placed, k) <==>
             exists j :: 0 <= j < k && SameLeaf(body, segs, j, k) &&
                 LeftAlone(body, segs, advice, address, estimate, j))
  {
    hide PlanTo, LiveRows, RenderTo, SquashTargets, Payload, Recode.RawLeaf, Staged;
    var plan := PlanTo(body, segs, |segs|, advice, address, estimate);
    var live := LiveRows(plan, body, segs, |segs|, address);
    PlanIsKeyed(body, segs, advice, address, estimate);
    RowsAreRows(plan, body, segs, |segs|, address);
    RenderFailsIff(body, segs, live, |live|, address);
    var placed := RenderTo(body, segs, live, |live|, address).value.placed;
    forall j | 0 <= j < k ensures Replaced(placed, j) <==> !LeftAlone(body, segs, advice, address, estimate, j) {
      ReplacedIffLive(body, segs, live, |live|, address, j);
      assert live[..|live|] == live;
      RowOf(plan, body, segs, |segs|, address, j);
      InPlanIff(body, segs, |segs|, advice, address, estimate, address(Payload(segs[j], body)));
    }
    hide Replaced, LeftAlone, SameLeaf;
  }

  // ---- a body of user turns, for the examples ----

  /** A text block as it stands in the request: its verbatim JSON and the text it decodes to. */
  datatype Turn = Turn(raw: string, text: string)

  function UserTurnWith(t: Turn): Message {
    Message(User, Blocks([Object(t.raw, map["type" := Str("text"), "text" := Str(t.text)])]))
  }

  /** The blocks, each in its own user turn, and a last turn that is current. */
  function BodyOf(turns: seq<Turn>): Body {
    Body(None, None, seq(|turns|, i requires 0 <= i < |turns| => UserTurnWith(turns[i])) +
        [UserTurnWith(Turn("", ""))], 1)
  }

  ghost predicate AllUserBlocks(msgs: seq<Message>) {
    forall i :: 0 <= i < |msgs| ==> msgs[i].role == User && msgs[i].content.Blocks?
  }

  lemma {:induction false} UserSegments(msgs: seq<Message>, i: nat, g: nat, index: nat, offset: nat)
    requires i <= |msgs| && AllUserBlocks(msgs)
    ensures var segs := MessageSegments(msgs, i, g, index, offset);
            |segs| == |msgs| - i &&
            forall k :: 0 <= k < |segs| ==>
              segs[k].kind == UserTurn && segs[k].sources == [i + k] && !segs[k].isTrueHuman && !segs[k].pinned &&
              segs[k].index == index + k
    decreases |msgs| - i
  {
    hide MessageSegments, Raws, SumLen, EstimateTokens;
    Unfold(msgs, i, g, index, offset);
    if i < |msgs| {
      var b := BuildAt(msgs, i, g);
      assert b.sources == [i];
      UserSegments(msgs, i + 1, b.generation, index + 1, offset + SumLen(b.raws));
    }
  }

  lemma SegmentOf(turns: seq<Turn>, k: nat)
    requires k < |turns|
    ensures var body := BodyOf(turns); var segs := Segments(body);
            SeqDiff.Indexed(segs) && |segs| == |turns| + 1 &&
            segs[k].kind == UserTurn && segs[k].sources == [k] && !Recode.Exempt(segs[k]) &&
            Payload(segs[k], body) == turns[k].raw
  {
    var body := BodyOf(turns);
    hide MessageSegments, PayloadOf;
    assert AllUserBlocks(body.messages);
    UserSegments(body.messages, 0, 0, 0, 0);
    forall j | 0 <= j < |Segments(body)| ensures Segments(body)[j].index == j { SegmentShape(body, j); }
    PayloadOfOne(body.messages, k);
    assert body.messages[k] == UserTurnWith(turns[k]);
    assert Raws(body.messages[k].content) == [turns[k].raw];
    assert Concat([turns[k].raw]) == turns[k].raw + Concat([turns[k].raw][1..]);
  }

  /** Long enough to be recoded and to be replaced. */
  predicate IsLong(t: Turn) {
    ByteLen(t.text) > Recode.MIN_RECODE_SPAN && ByteLen(t.raw) > Recode.MIN_BLOCK_SPAN
  }

  lemma LeafOf(turns: seq<Turn>, k: nat)
    requires k < |turns| && IsLong(turns[k])
    ensures var body := BodyOf(turns);
            |Segments(body)| == |turns| + 1 && Recode.RawLeaf(body, Segments(body)[k]) == Some(turns[k].text) &&
            SquashTargets(body, Segments(body)[k]) == [Target(k, Some(0), ByteLen(turns[k].raw), PlainText)]
  {
    SegmentOf(turns, k);
    hide Segments, ByteLen;
    var body := BodyOf(turns);
    assert body.messages[k] == UserTurnWith(turns[k]);
    BlockIsText(turns[k], k);
  }

  lemma BlockIsText(t: Turn, k: nat)
    requires IsLong(t)
    ensures var bs := UserTurnWith(t).content.blocks;
            Recode.BlockTexts(bs) == [t.text] &&
            BlockTargets(k, bs, 0, false) == [Target(k, Some(0), ByteLen(t.raw), PlainText)]
  {
    hide ByteLen;
    var b := UserTurnWith(t).content.blocks[0];
    assert Kind(b) == TextBlock;
    assert Recode.BlockTexts([b][1..]) == [];
    assert BlockTargets(k, [b], 1, false) == [];
  }

  // ---- dedup hides the text it points at ----

  /** The advice of a chain, with what the summarizer decides for the first segment, nothing gated, and a
      store that takes everything. */
  function AdviceOf(
    body: Body, segs: seq<Segment>, passes: seq<RecodeChain.ChainPass>, first: Option<Option<string>>): nat -> Answers
  {
    (k: nat) => Answers(false, ChainAnswer(RecodeChain.Slot(body, segs, passes, |passes|, k)),
                        if k == 0 then first else None, false)
  }

  lemma PlanIsKeyed(
    body: Body, segs: seq<Segment>, advice: nat -> Answers, address: Address, estimate: string -> nat)
    ensures Keyed(PlanTo(body, segs, |segs|, advice, address, estimate))
  {
    hide PlanTo, EntryFor, Payload;
    var plan := PlanTo(body, segs, |segs|, advice, address, estimate);
    forall key | key in plan ensures plan[key].refId == key {
      var k := PlanNamesPayloads(body, segs, |segs|, advice, address, estimate, key);
    }
  }

  /** Two turns with the same long text, whatever their JSON looks like. */
  predicate Twins(turns: seq<Turn>) {
    |turns| == 2 && turns[0].text == turns[1].text && IsLong(turns[0]) && IsLong(turns[1]) &&
    ByteLen(turns[0].text) >= RecodeChain.DEDUPE_MIN_CHARS
  }

  /** Dedup empties the second, and only it. */
  lemma DedupEmpties(turns: seq<Turn>)
    requires Twins(turns)
    ensures var body := BodyOf(turns); var segs, passes := Segments(body), [RecodeChain.DedupPass];
            |segs| == 3 && ChainAnswer(RecodeChain.Slot(body, segs, passes, 1, 0)) == None &&
            ChainAnswer(RecodeChain.Slot(body, segs, passes, 1, 1)) == Some(("", true)) &&
            ChainAnswer(RecodeChain.Slot(body, segs, passes, 1, 2)) == None
  {
    LeafOf(turns, 0);
    LeafOf(turns, 1);
    SegmentOf(turns, 1);
    var body := BodyOf(turns);
    var segs, passes := Segments(body), [RecodeChain.DedupPass];
    assert segs[2].pinned;
    assert Recode.RawLeaf(body, segs[2]).None?;
    hide Recode.RawLeaf, Segments, ByteLen, RecodeChain.DedupAll, BodyOf;
    assert RecodeChain.After(body, segs, passes, 0) == [];
    assert RecodeChain.After(body, segs, passes, 1) == RecodeChain.DedupAll(body, segs, []);
    RecodeChain.DedupReplacesRepeats(body, segs, [], 0);
    RecodeChain.DedupReplacesRepeats(body, segs, [], 1);
    RecodeChain.DedupReplacesRepeats(body, segs, [], 2);
    assert RecodeChain.DedupKey(body, segs[0]) == RecodeChain.DedupKey(body, segs[1]);
    assert RecodeChain.Repeats(body, segs, 1) && !RecodeChain.Repeats(body, segs, 0) &&
           !RecodeChain.Repeats(body, segs, 2);
    Ledger.EmptyFind(0);
    Ledger.EmptyFind(2);
  }

  lemma BareEntry(payload: string, first: Option<Option<string>>, address: Address, estimate: string -> nat)
    requires PrefersRecode("", payload)
    ensures var e := EntryFor(payload, Answers(false, Some(("", true)), first, false), address, estimate);
            e.Some? && e.value.recode == Bare(address(payload))
  {
    hide RenderBackref, PlaceholderOf;
  }

  lemma SummaryEntry(payload: string, first: Option<Option<string>>, address: Address, estimate: string -> nat)
    ensures var e := EntryFor(payload, Answers(false, None, first, false), address, estimate);
            (e.Some? <==> first.Some?) && (e.Some? ==> e.value.recode.None?)
  {
    hide RenderBackref, PlaceholderOf;
  }

  lemma LongIsPreferred(t: Turn)
    requires IsLong(t)
    ensures PrefersRecode("", t.raw)
  {
  }

  /** The plan for the twins: a bare back-reference for the second; for the first, its summary if it has
      an address of its own and was decided on. */
  lemma TwinPlan(turns: seq<Turn>, first: Option<Option<string>>, address: Address, estimate: string -> nat)
    requires Twins(turns)
    ensures var body := BodyOf(turns); var segs, passes := Segments(body), [RecodeChain.DedupPass];
            var plan := PlanTo(body, segs, |segs|, AdviceOf(body, segs, passes, first), address, estimate);
            var k0, k1 := address(turns[0].raw), address(turns[1].raw);
            k1 in plan && plan[k1].recode == Bare(k1) &&
            (k0 != k1 ==> (k0 in plan <==> first.Some?) && (k0 in plan ==> plan[k0].recode.None?)) &&
            (forall key :: key in plan ==> key == k0 || key == k1)
  {
    var body := BodyOf(turns);
    var segs, passes := Segments(body), [RecodeChain.DedupPass];
    var advice := AdviceOf(body, segs, passes, first);
    DedupEmpties(turns);
    SegmentOf(turns, 0);
    SegmentOf(turns, 1);
    LongIsPreferred(turns[1]);
    hide Segments, BodyOf, Payload, RecodeChain.Slot, RenderBackref, PlaceholderOf, ByteLen;
    BareEntry(turns[1].raw, None, address, estimate);
    SummaryEntry(turns[0].raw, first, address, estimate);
    SummaryEntry(Payload(segs[2], body), None, address, estimate);
    hide EntryFor;
    var plan1 := PlanTo(body, segs, 1, advice, address, estimate);
    assert PlanTo(body, segs, 0, advice, address, estimate) == map[];
    assert PlanTo(body, segs, 3, advice, address, estimate) == PlanTo(body, segs, 2, advice, address, estimate);
  }

  /** Two live segments with one target each, the second under a recode. */
  lemma RenderTwins(body: Body, segs: seq<Segment>, live: seq<(nat, Entry)>, address: Address, t0: Target, t1: Target)
    requires |segs| >= 2 && |live| == 2 && live[0].0 == 0 && live[1].0 == 1 && live[1].1.recode.Some?
    requires SquashTargets(body, segs[0]) == [t0] && SquashTargets(body, segs[1]) == [t1]
    ensures RenderTo(body, segs, live, 2, address).Some? &&
            var e0, e1 := live[0].1, live[1].1;
            RenderTo(body, segs, live, 2, address).value.placed ==
            [Placed(0, e0, t0, if e0.recode.Some? then RecodeText(e0.recode.value) else PlaceholderOf(e0)),
             Placed(1, e1, t1, RecodeText(e1.recode.value))]
  {
    hide SquashTargets, Payload, RenderTo, RecodeText, PlaceholderOf;
    var e0, e1 := live[0].1, live[1].1;
    RenderStep(body, segs, live, 0, address);
    RenderStep(body, segs, live, 1, address);
    RenderStep(body, segs, live, 2, address);
    WriteOne(0, segs[0], e0, address(Payload(segs[0], body)), t0, Pen(map[], []));
    var pen := RenderTo(body, segs, live, 1, address).value;
    WriteOne(1, segs[1], e1, address(Payload(segs[1], body)), t1, pen);
    hide WriteAll;
  }

  lemma WriteOne(k: nat, seg: Segment, e: Entry, key: RefId, t: Target, pen: Pen)
    requires e.recode.Some? || key !in pen.firstSeen
    ensures WriteAll(k, seg, e, key, [t], 1, pen).placed ==
            pen.placed + [Placed(k, e, t, if e.recode.Some? then RecodeText(e.recode.value) else PlaceholderOf(e))]
  {
    hide RecodeText, PlaceholderOf;
    assert WriteAll(k, seg, e, key, [t], 0, pen) == pen;
  }

  /** Twins whose first was summarized, or has the address of the second: the second goes out as a
      back-reference and the text is shown nowhere. With one address, even the first goes out as a
      back-reference; with two, as the placeholder of its summary. */
  lemma DedupHidesTheText(turns: seq<Turn>, first: Option<Option<string>>, address: Address, estimate: string -> nat)
    requires Twins(turns) && (first.Some? || address(turns[0].raw) == address(turns[1].raw))
    ensures var body := BodyOf(turns); var segs, passes := Segments(body), [RecodeChain.DedupPass];
            var plan := PlanTo(body, segs, |segs|, AdviceOf(body, segs, passes, first), address, estimate);
            |segs| == 3 && Hidden(body, segs, LiveRows(plan, body, segs, 3, address), address,
                                  address(turns[0].raw) == address(turns[1].raw))
  {
    hide Segments, SquashTargets, Payload, PlanTo, BodyOf, RenderTo, LiveRows, RenderBackref, PlaceholderOf, ByteLen,
      RecodeText, AdviceOf, Recode.RawLeaf, Hidden;
    var body := BodyOf(turns);
    var segs, passes := Segments(body), [RecodeChain.DedupPass];
    var plan := PlanTo(body, segs, |segs|, AdviceOf(body, segs, passes, first), address, estimate);
    SegmentOf(turns, 0);
    SegmentOf(turns, 1);
    LeafOf(turns, 0);
    LeafOf(turns, 1);
    LastOffersNothing(turns);
    PlanIsKeyed(body, segs, AdviceOf(body, segs, passes, first), address, estimate);
    TwinPlan(turns, first, address, estimate);
    TwinRows(plan, body, segs, address);
    var live := LiveRows(plan, body, segs, 3, address);
    RenderTwins(body, segs, live, address, Target(0, Some(0), ByteLen(turns[0].raw), PlainText),
                Target(1, Some(0), ByteLen(turns[1].raw), PlainText));
    TwinsAreHidden(body, segs, live, address, address(turns[0].raw), address(turns[1].raw));
  }

  /** Both are replaced, the second by a back-reference; under one address so is the first. */
  ghost predicate Hidden(body: Body, segs: seq<Segment>, live: seq<(nat, Entry)>, address: Address, same: bool)
    requires |segs| == 3
  {
    RenderTo(body, segs, live, |live|, address).Some? &&
    var placed := RenderTo(body, segs, live, |live|, address).value.placed;
    |placed| == 2 && placed[0].seg == 0 && placed[1].seg == 1 && SameLeaf(body, segs, 0, 1) &&
    IsBackref(placed[1]) && !TextStays(body, segs, placed, 1) &&
    if same then IsBackref(placed[0]) else ShowsInFull(placed[0])
  }

  lemma LastOffersNothing(turns: seq<Turn>)
    ensures var body := BodyOf(turns);
            |Segments(body)| == |turns| + 1 && SquashTargets(body, Segments(body)[|turns|]) == []
  {
    var body := BodyOf(turns);
    hide MessageSegments;
    assert AllUserBlocks(body.messages);
    UserSegments(body.messages, 0, 0, 0, 0);
    var bs := body.messages[|turns|].content.blocks;
    assert BlockTargets(|turns|, bs, 1, false) == [];
    assert BlockTargets(|turns|, bs, 0, false) == [];
  }

  lemma TwinRows(plan: Plan, body: Body, segs: seq<Segment>, address: Address)
    requires |segs| == 3 && SquashTargets(body, segs[0]) != [] && SquashTargets(body, segs[1]) != []
    requires SquashTargets(body, segs[2]) == []
    requires address(Payload(segs[0], body)) in plan && address(Payload(segs[1], body)) in plan
    ensures LiveRows(plan, body, segs, 3, address) ==
            [(0, plan[address(Payload(segs[0], body))]), (1, plan[address(Payload(segs[1], body))])]
  {
    hide SquashTargets, Payload;
    assert LiveRows(plan, body, segs, 0, address) == [];
    assert LiveRows(plan, body, segs, 1, address) == [(0, plan[address(Payload(segs[0], body))])];
  }

  lemma TwinsAreHidden(
    body: Body, segs: seq<Segment>, live: seq<(nat, Entry)>, address: Address, k0: RefId, k1: RefId)
    requires |segs| == 3 && |live| == 2 && RenderTo(body, segs, live, 2, address).Some?
    requires SameLeaf(body, segs, 0, 1)
    requires var placed, e0, e1 := RenderTo(body, segs, live, 2, address).value.placed, live[0].1, live[1].1;
             e0.refId == k0 && e1.refId == k1 && e1.recode == Bare(k1) &&
             (if k0 == k1 then e0 == e1 else e0.recode.None?) && |placed| == 2 &&
             placed[0].seg == 0 && placed[0].entry == e0 && placed[1].seg == 1 && placed[1].entry == e1 &&
             placed[0].text == (if e0.recode.Some? then RecodeText(e0.recode.value) else PlaceholderOf(e0)) &&
             placed[1].text == RecodeText(e1.recode.value)
    ensures Hidden(body, segs, live, address, k0 == k1)
  {
    hide RenderTo, RenderBackref, PlaceholderOf, RecodeText, SameLeaf;
    var placed := RenderTo(body, segs, live, 2, address).value.placed;
    assert Replaced(placed, 0);
  }

  // ---- a back-reference made without any comparison ----

  /** The markup pass, with whatever decides what looks like markup. */
  function MarkupPass(looks: string -> bool): Recode.Transform {
    Recode.Transform((t: string) => if looks(t) then Markup.Stripped(t) else None, true, "markup_strip")
  }

  function Fill(n: nat): string { seq(n, _ => 'x') }

  /** A page with nothing to show: an opening tag and a comment. */
  function BlankPage(filling: string): string { "<html><!--" + (filling + "-->") }

  /** The text starts like a blank page. */
  predicate StartsBlank(s: string) { |s| >= 10 && s[..10] == "<html><!--" }

  lemma BlankStart(s: string, k: nat)
    requires StartsBlank(s) && k < 10
    ensures s[k] == "<html><!--"[k]
  {
    assert s[k] == s[..10][k];
  }

  lemma HtmlTagEnd(s: string)
    requires StartsBlank(s)
    ensures Markup.TagEnd(s, 1, 0) == Some(5)
  {
    BlankStart(s, 1);
    BlankStart(s, 2);
    BlankStart(s, 3);
    BlankStart(s, 4);
    BlankStart(s, 5);
    hide StartsBlank;
    assert Markup.TagEnd(s, 5, 4) == Some(5);
    assert Markup.TagEnd(s, 4, 3) == Some(5);
    assert Markup.TagEnd(s, 3, 2) == Some(5);
    assert Markup.TagEnd(s, 2, 1) == Some(5);
  }

  lemma NotNamed(s: string, name: string)
    requires |s| > 1 && s[1] == 'h' && name != "" && Markup.Lower(name[0]) != 'h'
    ensures !Markup.NamedTagAt(s, 0, "<", name)
  {
    if 1 + |name| <= |s| { assert s[1..1 + |name|][0] == 'h'; }
  }

  lemma NoComment(s: string)
    requires |s| > 1 && s[1] == 'h'
    ensures !Markup.StartsAt(s, 0, "<!--")
  {
    assert |s| >= 4 ==> s[0..4][1] == 'h';
  }

  lemma BlankPageTag(s: string)
    requires StartsBlank(s)
    ensures Markup.Next(s, 0) == Some((Markup.Tag("html", false, false), 6))
  {
    BlankStart(s, 0);
    BlankStart(s, 1);
    BlankStart(s, 4);
    HtmlTagEnd(s);
    NotNamed(s, "script");
    NotNamed(s, "style");
    NoComment(s);
    NameOfHtml();
    assert s[1..5] == "html" by { assert s[1..5] == s[..10][1..5]; }
    hide Markup.TagEnd, Markup.NamedTagAt, Markup.StartsAt, StartsBlank;
  }

  lemma NameOfHtml()
    ensures Markup.NameLength("html") == 4
  {
    assert "html"[1..] == "tml" && "tml"[1..] == "ml" && "ml"[1..] == "l" && "l"[1..] == "";
    assert Markup.NameLength("l") == 1;
    assert Markup.NameLength("ml") == 2;
    assert Markup.NameLength("tml") == 3;
  }

  lemma BlankPageComment(filling: string)
    requires forall k :: 0 <= k < |filling| ==> filling[k] == 'x'
    ensures Markup.Next(BlankPage(filling), 6) == Some((Markup.Hidden, |BlankPage(filling)|))
  {
    var s, n := BlankPage(filling), |filling|;
    assert s[6..10] == "<!--" by { assert s[6..10] == "<html><!--"[6..10]; }
    assert s[10 + n..13 + n] == "-->";
    assert Markup.StartsAt(s, 10 + n, "-->");
    forall j | 10 <= j < 10 + n ensures !Markup.StartsAt(s, j, "-->") {
      assert s[j] == filling[j - 10];
      assert j + 3 <= |s| ==> s[j..j + 3][0] == 'x';
    }
    hide Markup.FindText;
  }

  lemma BlankPageStrips(filling: string)
    requires forall k :: 0 <= k < |filling| ==> filling[k] == 'x'
    ensures Markup.Stripped(BlankPage(filling)) == Some("")
  {
    var s := BlankPage(filling);
    assert StartsBlank(s);
    BlankPageTag(s);
    BlankPageComment(filling);
    hide Markup.Next, BlankPage, Markup.Tokens, Markup.Feed;
    var t := Markup.Tag("html", false, false);
    NoTokensLeft(s);
    TokensStep(s, 6, Markup.Hidden, |s|, []);
    assert [Markup.Hidden] + [] == [Markup.Hidden];
    TokensStep(s, 0, t, 6, [Markup.Hidden]);
    assert [t] + [Markup.Hidden] == [t, Markup.Hidden];
    ShowsNothing();
    ByteLenAtLeast(s);
    hide ByteLen, Markup.Render;
    assert ByteLen("") == 0 by { NoBytes(); }
  }

  lemma NoBytes()
    ensures ByteLen("") == 0
  {
  }

  lemma NoTokensLeft(s: string)
    ensures Markup.Tokens(s, |s|) == Some([])
  {
  }

  lemma TokensStep(s: string, i: nat, t: Markup.Token, next: nat, rest: seq<Markup.Token>)
    requires i < |s| && Markup.Next(s, i) == Some((t, next)) && next <= |s| && Markup.Tokens(s, next) == Some(rest)
    ensures Markup.Tokens(s, i) == Some([t] + rest)
  {
    hide Markup.Next;
  }

  lemma ShowsNothing()
    ensures Markup.Render(Markup.BLANK_PAGE, [Markup.Tag("html", false, false), Markup.Hidden]).out == ""
  {
    var t := Markup.Tag("html", false, false);
    assert [t, Markup.Hidden][1..] == [Markup.Hidden] && [Markup.Hidden][1..] == [];
    assert Markup.SeparatorOf(t) == None;
    assert Markup.Lower("html"[0]) != Markup.Lower("code"[0]);
    assert !Markup.IsPre(t);
  }

  /** A text that needs no escaping, as a JSON text block. */
  function TextJson(text: string): string { "{\"type\":\"text\",\"text\":\"" + (text + "\"}") }

  /** A page of markup only: the markup pass empties it, and what is staged tells the model that an
      earlier message says the same, although there is none. */
  lemma EmptiedPageClaimsAnEarlierOne(address: Address, estimate: string -> nat) returns (body: Body)
    ensures var segs, passes := Segments(body), [RecodeChain.RecodePass(MarkupPass(_ => true))];
            |segs| > 0 && !SaysTheSame(body, segs, 0) &&
            var e := EntryFor(Payload(segs[0], body), AdviceOf(body, segs, passes, None)(0), address, estimate);
            e.Some? && e.value.recode == Bare(address(Payload(segs[0], body)))
  {
    var filling := Fill(1100);
    var page := BlankPage(filling);
    ByteLenAtLeast(page);
    BlankPageStrips(filling);
    var turn := Turn(TextJson(page), page);
    ByteLenAtLeast(turn.raw);
    body := BodyOf([turn]);
    var t := MarkupPass(_ => true);
    var segs, passes := Segments(body), [RecodeChain.RecodePass(t)];
    SegmentOf([turn], 0);
    LeafOf([turn], 0);
    hide Segments, BodyOf, BlankPage, Fill, Payload, Recode.RawLeaf, ByteLen, RenderBackref, PlaceholderOf;
    assert RecodeChain.After(body, segs, passes, 0) == [];
    assert RecodeChain.After(body, segs, passes, 1) == Recode.RecodeAll(body, segs, t, []);
    Recode.PassActsPerSegment(body, segs, t, [], 0);
    Ledger.EmptyFind(0);
    EmptiedSlot(body, segs[0], t, page);
    LongIsPreferred(turn);
    BareEntry(turn.raw, None, address, estimate);
  }

  lemma EmptiedSlot(body: Body, seg: Segment, t: Recode.Transform, raw: string)
    requires Recode.RawLeaf(body, seg) == Some(raw) && t.rewrite(raw) == Some("") && t.refBacked
    ensures ChainAnswer(Recode.SlotStep(body, seg, t, None)) == Some(("", true))
  {
    hide Recode.LeafStrings;
  }
}
