/** From staged decisions to rendered markers: the plan keyed by content address, and the rendering
    that shows a repeated payload once and refers back to it afterwards. */
module Render {
  import opened Basics
  import opened Wire
  import opened Segmentation
  import opened Targets
  import opened Marker

  type Address = string -> RefId

  datatype StagedRecode = StagedRecode(content: string, refId: Option<RefId>, marker: Option<string>)

  datatype Entry = Entry(refId: RefId, tokens: nat, byteLen: nat, summary: Option<string>, recode: Option<StagedRecode>)

  type Plan = map<RefId, Entry>

  /** What the off-path passes, the summarizer and the store answer for one segment: a recode with
      whether it needs a ref, or a decision with its summary. */
  datatype Answers = Answers(gated: bool, recode: Option<(string, bool)>, decision: Option<Option<string>>,
      storeFails: bool)

  function TextOr(text: Option<string>): string { if text.Some? then text.value else "" }

  function PlaceholderOf(e: Entry): string { RenderPlaceholder(e.refId, e.tokens, e.byteLen, TextOr(e.summary), false) }

  // ---- staging ----

  /** A recode must save at least a fifth. */
  predicate PrefersRecode(content: string, payload: string) {
    payload != "" && 5 * ByteLen(content) <= 4 * ByteLen(payload)
  }

  function RecodeMarker(e: Entry, content: string): string {
    if content == "" then RenderBackref(e.refId) else PlaceholderOf(e)
  }

  function EntryFor(payload: string, a: Answers, address: Address, estimate: string -> nat): (e: Option<Entry>)
    ensures e.Some? ==> e.value.refId == address(payload)
  {
    var bare := Entry(address(payload), estimate(payload), ByteLen(payload), None, None);
    if a.gated then None
    else if a.recode.Some? && PrefersRecode(a.recode.value.0, payload) then
      var (content, needsRef) := a.recode.value;
      if a.storeFails then None
      else if needsRef then
        Some(bare.(recode := Some(StagedRecode(content, Some(bare.refId), Some(RecodeMarker(bare, content))))))
      else Some(bare.(recode := Some(StagedRecode(content, None, None))))
    else if a.decision.None? || a.storeFails then None
    else Some(bare.(summary := a.decision.value))
  }

  function PlanTo(
    body: Body, segs: seq<Segment>, n: nat, advice: nat -> Answers, address: Address, estimate: string -> nat): Plan
    requires n <= |segs|
  {
    if n == 0 then map[]
    else
      var plan := PlanTo(body, segs, n - 1, advice, address, estimate);
      var payload := Payload(segs[n - 1], body);
      match EntryFor(payload, advice(n - 1), address, estimate)
      case Some(e) => plan[address(payload) := e]
      case None => plan
  }

  /** Fills the plan, segment by segment. */
  method StagePlan(body: Body, segs: seq<Segment>, advice: nat -> Answers, address: Address, estimate: string -> nat)
    returns (plan: Plan)
    ensures plan == PlanTo(body, segs, |segs|, advice, address, estimate)
  {
    hide Payload, PrefersRecode, RecodeMarker, ByteLen;
    plan := map[];
    for k := 0 to |segs|
      invariant plan == PlanTo(body, segs, k, advice, address, estimate)
    {
      var payload, a := Payload(segs[k], body), advice(k);
      if !a.gated {
        var bare := Entry(address(payload), estimate(payload), ByteLen(payload), None, None);
        if a.recode.Some? && PrefersRecode(a.recode.value.0, payload) {
          if !a.storeFails {
            var (content, needsRef) := a.recode.value;
            var recode := if needsRef then StagedRecode(content, Some(bare.refId), Some(RecodeMarker(bare, content)))
                          else StagedRecode(content, None, None);
            plan := plan[address(payload) := bare.(recode := Some(recode))];
          }
        } else if a.decision.Some? && !a.storeFails {
          plan := plan[address(payload) := bare.(summary := a.decision.value)];
        }
      }
    }
  }

  /** Every plan entry was made for the payload its key addresses, by the last segment that made one. */
  lemma {:induction false} PlanNamesPayloads(
    body: Body, segs: seq<Segment>, n: nat, advice: nat -> Answers, address: Address, estimate: string -> nat,
        key: RefId) returns (k: nat)
    requires n <= |segs| && key in PlanTo(body, segs, n, advice, address, estimate)
    ensures k < n && key == address(Payload(segs[k], body))
    ensures EntryFor(Payload(segs[k], body), advice(k), address, estimate) ==
            Some(PlanTo(body, segs, n, advice, address, estimate)[key])
    ensures PlanTo(body, segs, n, advice, address, estimate)[key].refId == key
    ensures forall j :: k < j < n && address(Payload(segs[j], body)) == key ==>
              EntryFor(Payload(segs[j], body), advice(j), address, estimate).None?
  {
    hide EntryFor, Payload;
    var payload := Payload(segs[n - 1], body);
    if EntryFor(payload, advice(n - 1), address, estimate).Some? && address(payload) == key {
      k := n - 1;
    } else {
      k := PlanNamesPayloads(body, segs, n - 1, advice, address, estimate, key);
    }
  }

  // ---- rendering ----

  const DEDUPE_MIN_CHARS := 1024

  function RoleOf(kind: SegmentKind): Role { if kind == AssistantTurn then Assistant else User }

  /** Assistant turns may be deduplicated too. */
  predicate ShouldDedupe(bytes: nat, forced: bool) { !forced && bytes >= DEDUPE_MIN_CHARS }

  predicate CanDedupeFrom(prev: Role, cur: Role) { prev == cur || (prev == Assistant && cur == User) }

  predicate BackrefAllowed(prev: Role, e: Entry, seg: Segment) {
    ShouldDedupe(e.byteLen, seg.pinned) && CanDedupeFrom(prev, RoleOf(seg.kind))
  }

  datatype Placed = Placed(seg: nat, entry: Entry, target: Target, text: string)

  /** The roles under which payloads were first shown in full, and what is rendered so far. */
  datatype Pen = Pen(firstSeen: map<RefId, Role>, placed: seq<Placed>)

  function RecodeText(r: StagedRecode): string {
    if r.refId.Some? && r.marker.Some? then r.content + ("\n" + r.marker.value) else r.content
  }

  /** One target of a staged segment. */
  function Write(k: nat, seg: Segment, e: Entry, key: RefId, t: Target, pen: Pen): Pen {
    if e.recode.Some? then pen.(placed := pen.placed + [Placed(k, e, t, RecodeText(e.recode.value))])
    else if key in pen.firstSeen && BackrefAllowed(pen.firstSeen[key], e, seg) then
      pen.(placed := pen.placed + [Placed(k, e, t, RenderBackref(e.refId))])
    else
      Pen(if key in pen.firstSeen then pen.firstSeen else pen.firstSeen[key := RoleOf(seg.kind)],
          pen.placed + [Placed(k, e, t, PlaceholderOf(e))])
  }

  function WriteAll(k: nat, seg: Segment, e: Entry, key: RefId, ts: seq<Target>, n: nat, pen: Pen): Pen
    requires n <= |ts|
  {
    if n == 0 then pen else Write(k, seg, e, key, ts[n - 1], WriteAll(k, seg, e, key, ts, n - 1, pen))
  }

  /** A live segment with nothing to rewrite fails the whole rendering. */
  function RenderTo(body: Body, segs: seq<Segment>, live: seq<(nat, Entry)>, n: nat, address: Address): Option<Pen>
    requires n <= |live|
  {
    if n == 0 then Some(Pen(map[], []))
    else
      var pen, (k, e) := RenderTo(body, segs, live, n - 1, address), live[n - 1];
      if pen.None? || k >= |segs| || SquashTargets(body, segs[k]) == [] then None
      else
        var ts := SquashTargets(body, segs[k]);
        Some(WriteAll(k, segs[k], e, address(Payload(segs[k], body)), ts, |ts|, pen.value))
  }

  /** One entry's worth of rendering. */
  lemma RenderStep(body: Body, segs: seq<Segment>, live: seq<(nat, Entry)>, n: nat, address: Address)
    requires n <= |live|
    ensures n == 0 ==> RenderTo(body, segs, live, n, address) == Some(Pen(map[], []))
    ensures n > 0 ==>
              var (k, e), before := live[n - 1], RenderTo(body, segs, live, n - 1, address);
              RenderTo(body, segs, live, n, address) ==
              if before.None? || k >= |segs| || SquashTargets(body, segs[k]) == [] then None
              else Some(WriteAll(k, segs[k], e, address(Payload(segs[k], body)), SquashTargets(body, segs[k]),
                                 |SquashTargets(body, segs[k])|, before.value))
  {
    hide WriteAll, SquashTargets, Payload;
  }

  lemma {:induction false} NoneStays(
    body: Body, segs: seq<Segment>, live: seq<(nat, Entry)>, n: nat, m: nat, address: Address)
    requires n <= m <= |live| && RenderTo(body, segs, live, n, address).None?
    ensures RenderTo(body, segs, live, m, address).None?
  {
    hide SquashTargets, WriteAll, Payload;
    if n < m { NoneStays(body, segs, live, n, m - 1, address); }
  }

  method RenderSegments(body: Body, segs: seq<Segment>, live: seq<(nat, Entry)>, address: Address)
    returns (placed: Option<seq<Placed>>)
    ensures placed == match RenderTo(body, segs, live, |live|, address)
                      case Some(pen) => Some(pen.placed)
                      case None => None
  {
    hide SquashTargets, Payload, PlaceholderOf, RenderBackref, RecodeText, BackrefAllowed;
    var firstSeen: map<RefId, Role>, out: seq<Placed> := map[], [];
    for n := 0 to |live|
      invariant RenderTo(body, segs, live, n, address) == Some(Pen(firstSeen, out))
    {
      var (k, e) := live[n];
      if k >= |segs| || SquashTargets(body, segs[k]) == [] {
        NoneStays(body, segs, live, n + 1, |live|, address);
        return None;
      }
      var seg, ts := segs[k], SquashTargets(body, segs[k]);
      var key := address(Payload(seg, body));
      ghost var pen := Pen(firstSeen, out);
      for j := 0 to |ts|
        invariant Pen(firstSeen, out) == WriteAll(k, seg, e, key, ts, j, pen)
      {
        var text;
        if e.recode.Some? {
          text := RecodeText(e.recode.value);
        } else if key in firstSeen && BackrefAllowed(firstSeen[key], e, seg) {
          text := RenderBackref(e.refId);
        } else {
          if key !in firstSeen { firstSeen := firstSeen[key := RoleOf(seg.kind)]; }
          text := PlaceholderOf(e);
        }
        out := out + [Placed(k, e, ts[j], text)];
      }
    }
    placed := Some(out);
  }

  // ---- what the model reads ----

  /** A full placeholder of a marker-only entry. */
  predicate ShowsInFull(p: Placed) { p.entry.recode.None? && p.text == PlaceholderOf(p.entry) }

  /** A marker-only rendering is the full placeholder, or refers back to one further up that names
      the same ref, under a role it may be deduplicated from. */
  ghost predicate Anchored(segs: seq<Segment>, placed: seq<Placed>, i: nat)
    requires i < |placed|
  {
    placed[i].entry.recode.None? ==>
      ShowsInFull(placed[i]) ||
      (placed[i].text == RenderBackref(placed[i].entry.refId) && placed[i].seg < |segs| &&
          !segs[placed[i].seg].pinned &&
       placed[i].entry.byteLen >= DEDUPE_MIN_CHARS &&
       exists h :: 0 <= h < i && ShowsInFull(placed[h]) && placed[h].entry.refId == placed[i].entry.refId &&
                   placed[h].seg < |segs| && CanDedupeFrom(RoleOf(segs[placed[h].seg].kind),
                       RoleOf(segs[placed[i].seg].kind)))
  }

  ghost predicate SeenIn(segs: seq<Segment>, pen: Pen, key: RefId)
    requires key in pen.firstSeen
  {
    exists h :: 0 <= h < |pen.placed| && ShowsInFull(pen.placed[h]) && pen.placed[h].entry.refId == key &&
                pen.placed[h].seg < |segs| && RoleOf(segs[pen.placed[h].seg].kind) == pen.firstSeen[key]
  }

  ghost predicate Faithful(segs: seq<Segment>, pen: Pen) {
    (forall key :: key in pen.firstSeen ==> SeenIn(segs, pen, key)) &&
    (forall i :: 0 <= i < |pen.placed| ==> Anchored(segs, pen.placed, i))
  }

  lemma AppendKeeps(segs: seq<Segment>, pen: Pen, p: Placed)
    requires Faithful(segs, pen)
    ensures var out := pen.(placed := pen.placed + [p]);
            (forall key :: key in out.firstSeen ==> SeenIn(segs, out, key)) &&
            (forall i :: 0 <= i < |pen.placed| ==> Anchored(segs, out.placed, i))
  {
    var out := pen.(placed := pen.placed + [p]);
    assert forall h :: 0 <= h < |pen.placed| ==> out.placed[h] == pen.placed[h];
    forall key | key in out.firstSeen ensures SeenIn(segs, out, key) {
      assert SeenIn(segs, pen, key);
    }
    forall i | 0 <= i < |pen.placed| ensures Anchored(segs, out.placed, i) {
      assert Anchored(segs, pen.placed, i);
    }
  }

  lemma NewIsAnchored(segs: seq<Segment>, k: nat, e: Entry, t: Target, pen: Pen)
    requires Faithful(segs, pen) && k < |segs|
    ensures Anchored(segs, Write(k, segs[k], e, e.refId, t, pen).placed, |pen.placed|)
  {
    hide RenderBackref, PlaceholderOf, RecodeText, Anchored;
    var out := Write(k, segs[k], e, e.refId, t, pen);
    if e.recode.None? && e.refId in pen.firstSeen && BackrefAllowed(pen.firstSeen[e.refId], e, segs[k]) {
      assert SeenIn(segs, pen, e.refId);
      var h :| 0 <= h < |pen.placed| && ShowsInFull(pen.placed[h]) && pen.placed[h].entry.refId == e.refId &&
               pen.placed[h].seg < |segs| && RoleOf(segs[pen.placed[h].seg].kind) == pen.firstSeen[e.refId];
      AnchoredBy(segs, out.placed, |pen.placed|, h);
    } else {
      AnchoredInFull(segs, out.placed, |pen.placed|);
    }
  }

  lemma AnchoredBy(segs: seq<Segment>, placed: seq<Placed>, i: nat, h: nat)
    requires h < i < |placed| && placed[i].seg < |segs| && !segs[placed[i].seg].pinned
    requires placed[i].text == RenderBackref(placed[i].entry.refId) && placed[i].entry.byteLen >= DEDUPE_MIN_CHARS
    requires ShowsInFull(placed[h]) && placed[h].entry.refId == placed[i].entry.refId && placed[h].seg < |segs|
    requires CanDedupeFrom(RoleOf(segs[placed[h].seg].kind), RoleOf(segs[placed[i].seg].kind))
    ensures Anchored(segs, placed, i)
  {
    hide RenderBackref, PlaceholderOf;
  }

  lemma AnchoredInFull(segs: seq<Segment>, placed: seq<Placed>, i: nat)
    requires i < |placed| && (placed[i].entry.recode.None? ==> ShowsInFull(placed[i]))
    ensures Anchored(segs, placed, i)
  {
    hide RenderBackref, PlaceholderOf;
  }

  lemma WriteIsFaithful(segs: seq<Segment>, k: nat, e: Entry, t: Target, pen: Pen)
    requires Faithful(segs, pen) && k < |segs|
    ensures Faithful(segs, Write(k, segs[k], e, e.refId, t, pen))
  {
    hide RenderBackref, PlaceholderOf, RecodeText, Anchored, BackrefAllowed;
    var out := Write(k, segs[k], e, e.refId, t, pen);
    var p := out.placed[|pen.placed|];
    AppendKeeps(segs, pen, p);
    NewIsAnchored(segs, k, e, t, pen);
    assert out.placed == pen.placed + [p];
    var same := pen.(placed := pen.placed + [p]);
    forall key | key in out.firstSeen ensures SeenIn(segs, out, key) {
      if key in pen.firstSeen {
        assert SeenIn(segs, same, key);
      } else {
        assert ShowsInFull(out.placed[|pen.placed|]);
      }
    }
  }

  lemma {:induction false} WriteAllIsFaithful(segs: seq<Segment>, k: nat, e: Entry, ts: seq<Target>, n: nat, pen: Pen)
    requires Faithful(segs, pen) && k < |segs| && n <= |ts|
    ensures Faithful(segs, WriteAll(k, segs[k], e, e.refId, ts, n, pen))
  {
    hide Faithful, Write;
    if n > 0 {
      WriteAllIsFaithful(segs, k, e, ts, n - 1, pen);
      WriteIsFaithful(segs, k, e, ts[n - 1], WriteAll(k, segs[k], e, e.refId, ts, n - 1, pen));
    }
  }

  /** The live entries are those the plan holds for their segments. */
  ghost predicate Matched(body: Body, segs: seq<Segment>, live: seq<(nat, Entry)>, address: Address) {
    forall j :: 0 <= j < |live| && live[j].0 < |segs| ==> live[j].1.refId == address(Payload(segs[live[j].0], body))
  }

  /** Every back-reference points to a full placeholder of the same ref further up. */
  lemma {:induction false} BackrefsHaveAnchors(
    body: Body, segs: seq<Segment>, live: seq<(nat, Entry)>, n: nat, address: Address)
    requires n <= |live| && Matched(body, segs, live, address) && RenderTo(body, segs, live, n, address).Some?
    ensures Faithful(segs, RenderTo(body, segs, live, n, address).value)
  {
    hide Faithful, WriteAll, SquashTargets, Payload;
    if n == 0 {
      NothingIsFaithful(segs);
    } else {
      var (k, e) := live[n - 1];
      BackrefsHaveAnchors(body, segs, live, n - 1, address);
      var ts := SquashTargets(body, segs[k]);
      WriteAllIsFaithful(segs, k, e, ts, |ts|, RenderTo(body, segs, live, n - 1, address).value);
    }
  }

  lemma NothingIsFaithful(segs: seq<Segment>)
    ensures Faithful(segs, Pen(map[], []))
  {
  }

  /** What `Placed` entries come from: a target of their own segment, the live entry. */
  ghost predicate Sourced(body: Body, segs: seq<Segment>, live: seq<(nat, Entry)>, p: Placed) {
    (p.seg, p.entry) in live && p.seg < |segs| && p.target in SquashTargets(body, segs[p.seg]) &&
    match p.entry.recode
    case Some(r) => p.text == RecodeText(r)
    case None => p.text == PlaceholderOf(p.entry) || p.text == RenderBackref(p.entry.refId)
  }

  lemma {:induction false} WriteAllSourced(
    body: Body, segs: seq<Segment>, live: seq<(nat, Entry)>, k: nat, e: Entry, key: RefId, n: nat, pen: Pen)
    requires k < |segs| && (k, e) in live && n <= |SquashTargets(body, segs[k])|
    requires forall p :: p in pen.placed ==> Sourced(body, segs, live, p)
    ensures forall p :: p in WriteAll(k, segs[k], e, key, SquashTargets(body, segs[k]), n, pen).placed ==>
            Sourced(body, segs, live, p)
  {
    hide SquashTargets, PlaceholderOf, RenderBackref, RecodeText, BackrefAllowed;
    if n > 0 { WriteAllSourced(body, segs, live, k, e, key, n - 1, pen); }
  }

  lemma {:induction false} RenderSourced(
    body: Body, segs: seq<Segment>, live: seq<(nat, Entry)>, n: nat, address: Address)
    requires n <= |live| && RenderTo(body, segs, live, n, address).Some?
    ensures forall p :: p in RenderTo(body, segs, live, n, address).value.placed ==> Sourced(body, segs, live, p)
  {
    hide Sourced, WriteAll, SquashTargets, Payload, RenderTo;
    RenderStep(body, segs, live, n, address);
    if n > 0 {
      var (k, e) := live[n - 1];
      RenderSourced(body, segs, live, n - 1, address);
      assert live[n - 1] in live;
      WriteAllSourced(body, segs, live, k, e, address(Payload(segs[k], body)), |SquashTargets(body, segs[k])|,
                      RenderTo(body, segs, live, n - 1, address).value);
    }
  }

  /** Rendering fails exactly when a live segment is unknown or offers no target. */
  lemma {:induction false} RenderFailsIff(
    body: Body, segs: seq<Segment>, live: seq<(nat, Entry)>, n: nat, address: Address)
    requires n <= |live|
    ensures RenderTo(body, segs, live, n, address).None? <==>
            exists j :: 0 <= j < n && (live[j].0 >= |segs| || SquashTargets(body, segs[live[j].0]) == [])
  {
    hide SquashTargets, WriteAll, Payload, RenderTo;
    RenderStep(body, segs, live, n, address);
    if n > 0 { RenderFailsIff(body, segs, live, n - 1, address); }
  }

  /** The refs in one text: a staged payload's own address first, then what its summary mentions. */
  lemma MarkersNameTheRef(e: Entry)
    ensures ExtractRefs(PlaceholderOf(e)) == [e.refId] + ExtractRefs(TextOr(e.summary))
    ensures ExtractRefs(RenderBackref(e.refId)) == [e.refId]
  {
    hide ExtractRefs, RenderPlaceholder, RenderBackref;
    var p, b, s := PlaceholderOf(e), RenderBackref(e.refId), ExtractRefs(TextOr(e.summary));
    PlaceholderRoundTrip("", e.refId, e.tokens, e.byteLen, TextOr(e.summary), false, "");
    BackrefRoundTrip("", e.refId, "");
    EmptyHasNoRefs();
    assert "" + p + "" == p && "" + b + "" == b;
    assert [] + [e.refId] + s + [] == [e.refId] + s && [] + [e.refId] + [] == [e.refId];
  }

  lemma EmptyHasNoRefs()
    ensures ExtractRefs("") == []
  {
  }

  /** A recode staged with a ref ends in a marker of that very ref, whatever its content holds. */
  lemma RecodeTextNamesTheRef(payload: string, a: Answers, address: Address, estimate: string -> nat)
    requires var e := EntryFor(payload, a, address, estimate);
             e.Some? && e.value.recode.Some? && e.value.recode.value.refId.Some?
    ensures var r := EntryFor(payload, a, address, estimate).value.recode.value;
            ExtractRefs(RecodeText(r)) == ExtractRefs(r.content) + [address(payload)]
  {
    hide ExtractRefs, RenderPlaceholder, RenderBackref;
    var e := EntryFor(payload, a, address, estimate).value;
    var r := e.recode.value;
    var pre, marker := r.content + "\n", r.marker.value;
    PlaceholderRoundTrip(pre, e.refId, e.tokens, e.byteLen, "", false, "");
    BackrefRoundTrip(pre, e.refId, "");
    EmptyHasNoRefs();
    NewlineHasNoRefs(r.content);
    assert pre + marker + "" == RecodeText(r);
  }

  lemma NewlineHasNoRefs(s: string)
    ensures ExtractRefs(s + "\n") == ExtractRefs(s)
  {
    ExtractSplits(s, "\n");
    assert ExtractRefs("\n") == [] by { NothingInPlainText("\n", ""); assert "\n" + "" == "\n"; }
  }

  /** Everything rendered without a recode names the content address of the payload it replaces. */
  lemma RenderedTextsNameTheirPayloads(
    body: Body, segs: seq<Segment>, live: seq<(nat, Entry)>, address: Address, i: nat)
    requires Matched(body, segs, live, address) && RenderTo(body, segs, live, |live|, address).Some?
    requires i < |RenderTo(body, segs, live, |live|, address).value.placed|
    ensures var p := RenderTo(body, segs, live, |live|, address).value.placed[i];
            p.seg < |segs| &&
            (p.entry.recode.None? ==>
               ExtractRefs(p.text) != [] && ExtractRefs(p.text)[0] == address(Payload(segs[p.seg], body)))
  {
    RenderSourced(body, segs, live, |live|, address);
    hide ExtractRefs, PlaceholderOf, RenderBackref;
    var p := RenderTo(body, segs, live, |live|, address).value.placed[i];
    assert Sourced(body, segs, live, p);
    MarkersNameTheRef(p.entry);
    var j :| 0 <= j < |live| && live[j] == (p.seg, p.entry);
  }

  /** The renderings fit the body, so the splice keeps its tool pairs and roles. */
  lemma RenderedFits(body: Body, segs: seq<Segment>, live: seq<(nat, Entry)>, address: Address, printer: Printer)
    requires RenderTo(body, segs, live, |live|, address).Some?
    ensures var placed := RenderTo(body, segs, live, |live|, address).value.placed;
            AllFit(seq(|placed|, i requires 0 <= i < |placed| =>
                         Targets.Render(placed[i].target, placed[i].text, printer)),
                   body.messages)
  {
    RenderSourced(body, segs, live, |live|, address);
    hide PlaceholderOf, RenderBackref, RecodeText, RenderTo;
    var placed := RenderTo(body, segs, live, |live|, address).value.placed;
    forall i | 0 <= i < |placed|
      ensures Fits(Targets.Render(placed[i].target, placed[i].text, printer), body.messages)
    {
      var p := placed[i];
      assert Sourced(body, segs, live, p);
      var ts := SquashTargets(body, segs[p.seg]);
      var t :| 0 <= t < |ts| && ts[t] == p.target;
      SquashTargetsOffered(body, segs[p.seg], t);
      RenderFits(p.target, p.text, printer, body.messages);
    }
  }
}
