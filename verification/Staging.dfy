/** What a plan holds for a payload, and which repeats of it are rendered as back-references. */
module Staging {
  import opened Basics
  import opened Wire
  import opened Segmentation
  import opened Targets
  import opened Marker
  import opened Render

  // ---- the plan ----

  /** A recode no longer than four fifths of a payload that is not empty. */
  predicate Worthwhile(a: Answers, payload: string) {
    a.recode.Some? && payload != "" && 5 * ByteLen(a.recode.value.0) <= 4 * ByteLen(payload)
  }

  /** An entry is staged when the gate lets it pass, the store takes it and there is a worthwhile recode or
      else a decision. It describes the payload; a recode carries the content and, if it needs one, the ref
      and its marker; a decision carries its summary. */
  lemma EntryIs(payload: string, a: Answers, address: Address, estimate: string -> nat)
    ensures var e := EntryFor(payload, a, address, estimate);
            (e.Some? <==> !a.gated && !a.storeFails && (Worthwhile(a, payload) || a.decision.Some?)) &&
            (e.Some? ==>
               e.value.refId == address(payload) && e.value.tokens == estimate(payload) &&
               e.value.byteLen == ByteLen(payload)) &&
            (e.Some? && Worthwhile(a, payload) ==>
               var (content, needsRef) := a.recode.value;
               var marker := if content == "" then RenderBackref(address(payload))
                             else RenderPlaceholder(address(payload), estimate(payload), ByteLen(payload), "", false);
               e.value.summary == None && e.value.recode.Some? &&
               var r := e.value.recode.value;
               r.content == content && r.refId == (if needsRef then Some(address(payload)) else None) &&
               r.marker == if needsRef then Some(marker) else None) &&
            (e.Some? && !Worthwhile(a, payload) ==> e.value.recode == None && e.value.summary == a.decision.value)
  {
    hide RenderBackref, RenderPlaceholder;
  }

  /** Segment `k` is the last of the first `n` that stages an entry under the key. */
  ghost predicate StagesLast(
    body: Body, segs: seq<Segment>, n: nat, advice: nat -> Answers, address: Address, key: RefId, k: int)
    requires n <= |segs|
  {
    0 <= k < n && address(Payload(segs[k], body)) == key && Stages(body, segs[k], advice(k)) &&
    forall j :: k < j < n && address(Payload(segs[j], body)) == key ==> !Stages(body, segs[j], advice(j))
  }

  predicate Stages(body: Body, seg: Segment, a: Answers) {
    !a.gated && !a.storeFails && (Worthwhile(a, Payload(seg, body)) || a.decision.Some?)
  }

  /** The plan holds a key exactly when some segment stages it, and then what the last one staged. */
  lemma {:induction false} PlanHolds(
    body: Body, segs: seq<Segment>, n: nat, advice: nat -> Answers, address: Address, estimate: string -> nat,
    key: RefId)
    requires n <= |segs|
    ensures var plan := PlanTo(body, segs, n, advice, address, estimate);
            (key in plan <==> exists k :: StagesLast(body, segs, n, advice, address, key, k)) &&
            forall k :: StagesLast(body, segs, n, advice, address, key, k) ==>
                        key in plan &&
                        Some(plan[key]) == EntryFor(Payload(segs[k], body), advice(k), address, estimate)
  {
    hide EntryFor, Payload, Stages;
    if n > 0 {
      PlanHolds(body, segs, n - 1, advice, address, estimate, key);
      var payload := Payload(segs[n - 1], body);
      assert EntryFor(payload, advice(n - 1), address, estimate).Some? <==>
             Stages(body, segs[n - 1], advice(n - 1)) by {
        EntryIs(payload, advice(n - 1), address, estimate);
        assert Stages(body, segs[n - 1], advice(n - 1)) <==>
               !advice(n - 1).gated && !advice(n - 1).storeFails &&
               (Worthwhile(advice(n - 1), payload) ||
                   advice(n - 1).decision.Some?) by { StagesIs(body, segs[n - 1], advice(n - 1)); }
      }
      LastStaged(body, segs, n, advice, address, key);
      hide StagesLast;
      assert Stages(body, segs[n - 1], advice(n - 1)) && address(payload) == key ==>
             StagesLast(body, segs, n, advice, address, key, n - 1);
      var before := n - 1;
      if k :| StagesLast(body, segs, before, advice, address, key, k) {
        assert StagesLast(body, segs, n, advice, address, key, k) ||
               (Stages(body, segs[n - 1], advice(n - 1)) && address(payload) == key);
      }
    }
  }

  lemma StagesIs(body: Body, seg: Segment, a: Answers)
    ensures Stages(body, seg, a) <==>
            !a.gated && !a.storeFails && (Worthwhile(a, Payload(seg, body)) || a.decision.Some?)
  {
  }

  lemma LastStaged(body: Body, segs: seq<Segment>, n: nat, advice: nat -> Answers, address: Address, key: RefId)
    requires 0 < n <= |segs|
    ensures forall k :: StagesLast(body, segs, n, advice, address, key, k) <==>
              if address(Payload(segs[n - 1], body)) == key && Stages(body, segs[n - 1], advice(n - 1)) then k == n - 1
              else StagesLast(body, segs, n - 1, advice, address, key, k)
  {
    hide Payload, Stages;
  }

  // ---- repeats ----

  /** The first place in the rendering that stands for this ref without a recode. */
  ghost predicate FirstFor(placed: seq<Placed>, ref: RefId, h: int) {
    0 <= h < |placed| && placed[h].entry.recode.None? && placed[h].entry.refId == ref &&
    forall g :: 0 <= g < h ==> !(placed[g].entry.recode.None? && placed[g].entry.refId == ref)
  }

  /** That place belongs to an assistant turn, or to none. */
  ghost predicate FirstUnder(segs: seq<Segment>, placed: seq<Placed>, ref: RefId, h: int, assistant: bool) {
    FirstFor(placed, ref, h) && placed[h].seg < |segs| && (assistant <==> segs[placed[h].seg].kind == AssistantTurn)
  }

  /** A repeat of at least 1024 bytes outside pinned segments, first shown under the same role or by the
      assistant before the user. */
  ghost predicate RefersBack(segs: seq<Segment>, placed: seq<Placed>, i: nat)
    requires i < |placed|
  {
    placed[i].seg < |segs| && !segs[placed[i].seg].pinned && placed[i].entry.byteLen >= 1024 &&
    exists h, assistant :: FirstUnder(segs, placed, placed[i].entry.refId, h, assistant) && h < i &&
                           (assistant || segs[placed[i].seg].kind != AssistantTurn)
  }

  /** What each place must say. */
  ghost predicate SaysRight(segs: seq<Segment>, placed: seq<Placed>, i: nat)
    requires i < |placed|
  {
    placed[i].seg < |segs| &&
    (placed[i].entry.recode.None? ==>
       placed[i].text == if RefersBack(segs, placed, i) then RenderBackref(placed[i].entry.refId)
                         else PlaceholderOf(placed[i].entry))
  }

  function AsRole(assistant: bool): Role { if assistant then Assistant else User }

  ghost predicate AllSayRight(segs: seq<Segment>, placed: seq<Placed>) {
    forall i :: 0 <= i < |placed| ==> SaysRight(segs, placed, i)
  }

  /** The pen remembers every ref shown and the role it was first shown under. */
  ghost predicate Remembers(segs: seq<Segment>, pen: Pen) {
    (forall h :: 0 <= h < |pen.placed| && pen.placed[h].entry.recode.None? ==>
       pen.placed[h].entry.refId in pen.firstSeen) &&
    (forall ref :: ref in pen.firstSeen ==>
       exists h, assistant ::
         FirstUnder(segs, pen.placed, ref, h, assistant) && pen.firstSeen[ref] == AsRole(assistant))
  }

  ghost predicate Exact(segs: seq<Segment>, pen: Pen) { AllSayRight(segs, pen.placed) && Remembers(segs, pen) }

  lemma FirstGrows(segs: seq<Segment>, placed: seq<Placed>, p: Placed, ref: RefId, h: int, assistant: bool)
    ensures h < |placed| ==>
              (FirstUnder(segs, placed + [p], ref, h, assistant) <==> FirstUnder(segs, placed, ref, h, assistant))
    ensures FirstUnder(segs, placed, ref, h, assistant) ==>
              h < |placed| && FirstUnder(segs, placed + [p], ref, h, assistant)
  {
    assert forall g :: 0 <= g < |placed| ==> (placed + [p])[g] == placed[g];
  }

  lemma OneFirst(segs: seq<Segment>, placed: seq<Placed>, ref: RefId, h: int, a: bool, h': int, a': bool)
    requires FirstUnder(segs, placed, ref, h, a) && FirstUnder(segs, placed, ref, h', a')
    ensures h == h' && a == a'
  {
  }

  lemma AllStillSayRight(segs: seq<Segment>, placed: seq<Placed>, p: Placed)
    requires AllSayRight(segs, placed) && SaysRight(segs, placed + [p], |placed|)
    ensures AllSayRight(segs, placed + [p])
  {
    hide FirstUnder, RenderBackref, PlaceholderOf;
    var out := placed + [p];
    forall i | 0 <= i < |placed| ensures SaysRight(segs, out, i) {
      assert SaysRight(segs, placed, i) && out[i] == placed[i];
      forall h, a ensures h < i ==> (FirstUnder(segs, out, out[i].entry.refId, h, a) <==>
                                     FirstUnder(segs, placed, out[i].entry.refId, h, a))
      {
        FirstGrows(segs, placed, p, out[i].entry.refId, h, a);
      }
    }
  }

  lemma WriteIsExact(segs: seq<Segment>, k: nat, e: Entry, t: Target, pen: Pen)
    requires Exact(segs, pen) && k < |segs|
    ensures Exact(segs, Write(k, segs[k], e, e.refId, t, pen))
  {
    hide SaysRight, AllSayRight, Remembers, RenderBackref, PlaceholderOf, RecodeText, BackrefAllowed;
    var out := Write(k, segs[k], e, e.refId, t, pen);
    assert out.placed == pen.placed + [out.placed[|pen.placed|]];
    NewSaysRight(segs, k, e, t, pen);
    AllStillSayRight(segs, pen.placed, out.placed[|pen.placed|]);
    WriteRemembers(segs, k, e, t, pen);
  }

  lemma WriteRemembers(segs: seq<Segment>, k: nat, e: Entry, t: Target, pen: Pen)
    requires Remembers(segs, pen) && k < |segs|
    ensures Remembers(segs, Write(k, segs[k], e, e.refId, t, pen))
  {
    hide RenderBackref, PlaceholderOf, RecodeText, BackrefAllowed, FirstUnder;
    var out := Write(k, segs[k], e, e.refId, t, pen);
    var p := out.placed[|pen.placed|];
    assert out.placed == pen.placed + [p];
    forall ref | ref in out.firstSeen
      ensures exists h, a :: FirstUnder(segs, out.placed, ref, h, a) && out.firstSeen[ref] == AsRole(a)
    {
      if ref in pen.firstSeen {
        var h, a :| FirstUnder(segs, pen.placed, ref, h, a) && pen.firstSeen[ref] == AsRole(a);
        FirstGrows(segs, pen.placed, p, ref, h, a);
      } else {
        NewIsFirst(segs, pen.placed, p, ref);
      }
    }
  }

  lemma NewIsFirst(segs: seq<Segment>, placed: seq<Placed>, p: Placed, ref: RefId)
    requires p.entry.recode.None? && p.entry.refId == ref && p.seg < |segs|
    requires forall h :: 0 <= h < |placed| && placed[h].entry.recode.None? ==> placed[h].entry.refId != ref
    ensures FirstUnder(segs, placed + [p], ref, |placed|, segs[p.seg].kind == AssistantTurn)
  {
  }

  lemma NewSaysRight(segs: seq<Segment>, k: nat, e: Entry, t: Target, pen: Pen)
    requires Remembers(segs, pen) && k < |segs|
    ensures SaysRight(segs, Write(k, segs[k], e, e.refId, t, pen).placed, |pen.placed|)
  {
    hide RenderBackref, RenderPlaceholder, RecodeText, FirstUnder;
    var out := Write(k, segs[k], e, e.refId, t, pen);
    var n, ref := |pen.placed|, e.refId;
    var p := out.placed[n];
    assert out.placed == pen.placed + [p] && p.seg == k && p.entry == e;
    forall h, a ensures h < n ==>
        (FirstUnder(segs, out.placed, ref, h, a) <==> FirstUnder(segs, pen.placed, ref, h, a)) {
      FirstGrows(segs, pen.placed, p, ref, h, a);
    }
    if ref in pen.firstSeen {
      var h, a :| FirstUnder(segs, pen.placed, ref, h, a) && pen.firstSeen[ref] == AsRole(a);
      FirstGrows(segs, pen.placed, p, ref, h, a);
      forall h', a' | FirstUnder(segs, out.placed, ref, h', a') ensures h' == h && a' == a {
        OneFirst(segs, out.placed, ref, h, a, h', a');
      }
    } else {
      forall h, a ensures !FirstUnder(segs, pen.placed, ref, h, a) { NotSeen(segs, pen, ref, h, a); }
    }
  }

  lemma NotSeen(segs: seq<Segment>, pen: Pen, ref: RefId, h: int, a: bool)
    requires Remembers(segs, pen) && ref !in pen.firstSeen
    ensures !FirstUnder(segs, pen.placed, ref, h, a)
  {
  }

  lemma {:induction false} WriteAllIsExact(segs: seq<Segment>, k: nat, e: Entry, ts: seq<Target>, n: nat, pen: Pen)
    requires Exact(segs, pen) && k < |segs| && n <= |ts|
    ensures Exact(segs, WriteAll(k, segs[k], e, e.refId, ts, n, pen))
  {
    hide Exact, Write;
    if n > 0 {
      WriteAllIsExact(segs, k, e, ts, n - 1, pen);
      WriteIsExact(segs, k, e, ts[n - 1], WriteAll(k, segs[k], e, e.refId, ts, n - 1, pen));
    }
  }

  /** Every place without a recode says exactly what it must: a repeat that may refer back does. */
  lemma {:induction false} BackrefsExactlyWhenAllowed(
    body: Body, segs: seq<Segment>, live: seq<(nat, Entry)>, n: nat, address: Address)
    requires n <= |live| && Matched(body, segs, live, address) && RenderTo(body, segs, live, n, address).Some?
    ensures Exact(segs, RenderTo(body, segs, live, n, address).value)
  {
    hide Exact, WriteAll, SquashTargets, Payload;
    if n == 0 {
      NothingIsExact(segs);
    } else {
      var (k, e) := live[n - 1];
      BackrefsExactlyWhenAllowed(body, segs, live, n - 1, address);
      var ts := SquashTargets(body, segs[k]);
      WriteAllIsExact(segs, k, e, ts, |ts|, RenderTo(body, segs, live, n - 1, address).value);
    }
  }

  lemma NothingIsExact(segs: seq<Segment>)
    ensures Exact(segs, Pen(map[], []))
  {
  }

  // ---- every target of every live entry is rendered ----

  /** A recode's content, and below it the marker of its ref when it has one. */
  function Recoded(r: StagedRecode): string {
    match (r.refId, r.marker)
    case (Some(_), Some(marker)) => r.content + "\n" + marker
    case _ => r.content
  }

  lemma RecodedIs(r: StagedRecode)
    ensures RecodeText(r) == Recoded(r)
  {
    if r.marker.Some? { assert r.content + ("\n" + r.marker.value) == r.content + "\n" + r.marker.value; }
  }

  /** From `start` on, the first `n` targets are placed in order for this entry. */
  ghost predicate PlacedFrom(out: seq<Placed>, start: nat, k: nat, e: Entry, ts: seq<Target>, n: nat) {
    n <= |ts| && start + n <= |out| &&
    forall i :: start <= i < start + n ==>
      out[i].seg == k && out[i].entry == e && out[i].target == ts[i - start] &&
      (e.recode.Some? ==> out[i].text == Recoded(e.recode.value))
  }

  lemma {:induction false} WriteAllPlaces(k: nat, seg: Segment, e: Entry, key: RefId, ts: seq<Target>, n: nat, pen: Pen)
    requires n <= |ts|
    ensures var out := WriteAll(k, seg, e, key, ts, n, pen).placed;
            |out| == |pen.placed| + n && out[..|pen.placed|] == pen.placed &&
            PlacedFrom(out, |pen.placed|, k, e, ts, n)
  {
    hide RenderBackref, PlaceholderOf, RecodeText, Recoded, BackrefAllowed;
    if e.recode.Some? { RecodedIs(e.recode.value); }
    if n > 0 {
      WriteAllPlaces(k, seg, e, key, ts, n - 1, pen);
      var before, out := WriteAll(k, seg, e, key, ts, n - 1, pen).placed, WriteAll(k, seg, e, key, ts, n, pen).placed;
      assert out == before + [out[|before|]];
      assert out[|before|].target == ts[n - 1];
      hide WriteAll;
      assert out[..|pen.placed|] == before[..|pen.placed|];
      forall i | |pen.placed| <= i < |before| ensures out[i] == before[i] {}
    }
  }

  /** Where the places of the `n`-th live entry start. */
  function Start(body: Body, segs: seq<Segment>, live: seq<(nat, Entry)>, n: nat): nat
    requires n <= |live|
  {
    if n == 0 then 0
    else
      Start(body, segs, live, n - 1) +
      if live[n - 1].0 < |segs| then |SquashTargets(body, segs[live[n - 1].0])| else 0
  }

  /** The rendering lists, entry after entry, every target of its segment once; a recode says its text. */
  lemma {:induction false} RenderPlaces(
    body: Body, segs: seq<Segment>, live: seq<(nat, Entry)>, n: nat, address: Address, m: nat, j: nat)
    requires m < n <= |live| && RenderTo(body, segs, live, n, address).Some?
    requires live[m].0 < |segs| && j < |SquashTargets(body, segs[live[m].0])|
    ensures var placed, at := RenderTo(body, segs, live, n, address).value.placed, Start(body, segs, live, m) + j;
            |placed| == Start(body, segs, live, n) && at < |placed| && placed[at].seg == live[m].0 &&
            placed[at].entry == live[m].1 && placed[at].target == SquashTargets(body, segs[live[m].0])[j] &&
            (live[m].1.recode.Some? ==> placed[at].text == Recoded(live[m].1.recode.value))
  {
    hide WriteAll, SquashTargets, Payload, Recoded, RenderTo;
    RenderLength(body, segs, live, n, address);
    RenderStep(body, segs, live, n, address);
    RenderLength(body, segs, live, n - 1, address);
    var (k, e) := live[n - 1];
    var ts, pen := SquashTargets(body, segs[k]), RenderTo(body, segs, live, n - 1, address).value;
    WriteAllPlaces(k, segs[k], e, address(Payload(segs[k], body)), ts, |ts|, pen);
    if m < n - 1 {
      RenderPlaces(body, segs, live, n - 1, address, m, j);
      var placed, at := RenderTo(body, segs, live, n, address).value.placed, Start(body, segs, live, m) + j;
      assert placed[..|pen.placed|][at] == placed[at];
    } else {
      assert Start(body, segs, live, m) == |pen.placed|;
    }
  }

  lemma {:induction false} RenderLength(
    body: Body, segs: seq<Segment>, live: seq<(nat, Entry)>, n: nat, address: Address)
    requires n <= |live| && RenderTo(body, segs, live, n, address).Some?
    ensures |RenderTo(body, segs, live, n, address).value.placed| == Start(body, segs, live, n)
  {
    hide WriteAll, SquashTargets, Payload, RenderTo;
    RenderStep(body, segs, live, n, address);
    if n > 0 {
      var (k, e) := live[n - 1];
      RenderLength(body, segs, live, n - 1, address);
      WriteAllPlaces(k, segs[k], e, address(Payload(segs[k], body)), SquashTargets(body, segs[k]),
                     |SquashTargets(body, segs[k])|, RenderTo(body, segs, live, n - 1, address).value);
    }
  }
}
