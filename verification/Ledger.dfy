/** The plan the passes build together: the scores, at most one proposal per segment, and an audit trail. */
module Ledger {
  import opened Basics

  /** What becomes of a segment; `Recode` carries a ref only when its original must stay retrievable. */
  datatype Strategy =
    | Keep
    | Recode(content: string, markedBy: Option<string>)
    | Truncate(ranges: seq<(nat, nat)>)
    | Summarize(text: string)
    | ReversibleRef(id: string, summary: string)
    | Drop

  datatype Proposal = Proposal(
    segIndex: nat, strategy: Strategy, refId: Option<string>, needsRef: Option<string>, netRemoved: int, author: string)

  datatype Provenance = Provenance(segIndex: nat, author: string, note: string)

  /** A segment's scalar score; a vetoed one is minus infinity. */
  datatype Score = Vetoed | Scored(v: real)

  datatype Plan = Plan(scores: seq<Score>, proposals: seq<Proposal>, provenance: seq<Provenance>)

  const EMPTY := Plan([], [], [])

  /** The empty plan for so many segments: every score starts at zero. */
  function Sized(n: nat): Plan { Plan(seq(n, _ => Scored(0.0)), [], []) }

  /** The position of a segment's proposal, or the length when it has none. */
  function Position(ps: seq<Proposal>, seg: nat): (k: nat)
    ensures k <= |ps| && (k < |ps| ==> ps[k].segIndex == seg)
  {
    if ps == [] || ps[0].segIndex == seg then 0 else 1 + Position(ps[1..], seg)
  }

  function Find(ps: seq<Proposal>, seg: nat): Option<Proposal> {
    var k := Position(ps, seg);
    if k < |ps| then Some(ps[k]) else None
  }

  function Upsert(ps: seq<Proposal>, p: Proposal): seq<Proposal> {
    var k := Position(ps, p.segIndex);
    if k < |ps| then ps[k := p] else ps + [p]
  }

  function Retain(ps: seq<Proposal>, keep: Proposal -> bool): seq<Proposal> {
    if ps == [] then [] else (if keep(ps[0]) then [ps[0]] else []) + Retain(ps[1..], keep)
  }

  class PlanLedger {
    var scores: seq<Score>
    var proposals: seq<Proposal>
    var provenance: seq<Provenance>

    constructor (segments: nat)
      ensures View() == Sized(segments)
    {
      scores, proposals, provenance := seq(segments, _ => Scored(0.0)), [], [];
    }

    function View(): Plan reads this { Plan(scores, proposals, provenance) }

    method SetScore(seg: nat, score: Score)
      requires seg < |scores|
      modifies this`scores
      ensures scores == old(scores)[seg := score]
    {
      scores := scores[seg := score];
    }

    method ProposalFor(seg: nat) returns (p: Option<Proposal>)
      ensures p == Find(proposals, seg)
    {
      p := None;
      var k := 0;
      while k < |proposals|
        invariant k <= |proposals|
        invariant Position(proposals, seg) == k + Position(proposals[k..], seg)
      {
        if proposals[k].segIndex == seg { return Some(proposals[k]); }
        assert proposals[k..][1..] == proposals[k + 1..];
        k := k + 1;
      }
    }

    method UpsertProposal(p: Proposal)
      modifies this`proposals
      ensures proposals == Upsert(old(proposals), p)
    {
      var k := 0;
      while k < |proposals|
        invariant k <= |proposals| && proposals == old(proposals)
        invariant Position(proposals, p.segIndex) == k + Position(proposals[k..], p.segIndex)
      {
        if proposals[k].segIndex == p.segIndex {
          proposals := proposals[k := p];
          return;
        }
        assert proposals[k..][1..] == proposals[k + 1..];
        k := k + 1;
      }
      proposals := proposals + [p];
    }

    method Record(note: Provenance)
      modifies this`provenance
      ensures provenance == old(provenance) + [note]
    {
      provenance := provenance + [note];
    }
  }

  // ---- what the writes guarantee ----

  ghost predicate OnePerSegment(ps: seq<Proposal>) {
    forall i, j :: 0 <= i < j < |ps| ==> ps[i].segIndex != ps[j].segIndex
  }

  lemma {:induction false} PositionIsFirst(ps: seq<Proposal>, seg: nat)
    ensures forall i :: 0 <= i < Position(ps, seg) ==> ps[i].segIndex != seg
  {
    if ps != [] && ps[0].segIndex != seg {
      PositionIsFirst(ps[1..], seg);
      forall i | 0 <= i < Position(ps, seg) ensures ps[i].segIndex != seg {
        if i > 0 { assert ps[i] == ps[1..][i - 1]; }
      }
    }
  }

  lemma {:induction false} PositionUnique(ps: seq<Proposal>, seg: nat, k: nat)
    requires k <= |ps| && (k < |ps| ==> ps[k].segIndex == seg)
    requires forall i :: 0 <= i < k ==> ps[i].segIndex != seg
    ensures Position(ps, seg) == k
  {
    if k > 0 { PositionUnique(ps[1..], seg, k - 1); }
  }

  lemma EmptyFind(seg: nat)
    ensures Find([], seg) == None
  {
  }

  /** The segment written gets the new proposal; every other segment keeps what it had. */
  lemma FindAfterUpsert(ps: seq<Proposal>, p: Proposal, seg: nat)
    ensures Find(Upsert(ps, p), seg) == if seg == p.segIndex then Some(p) else Find(ps, seg)
  {
    PositionIsFirst(ps, seg);
    PositionIsFirst(ps, p.segIndex);
    var k := Position(ps, seg);
    if seg != p.segIndex && k == |ps| && Position(ps, p.segIndex) == |ps| {
      PositionUnique(Upsert(ps, p), seg, |ps| + 1);
    } else {
      PositionUnique(Upsert(ps, p), seg, k);
    }
  }

  lemma UpsertKeepsOnePerSegment(ps: seq<Proposal>, p: Proposal)
    requires OnePerSegment(ps)
    ensures OnePerSegment(Upsert(ps, p))
  {
    PositionIsFirst(ps, p.segIndex);
  }

  lemma {:induction false} RetainKeepsMembers(ps: seq<Proposal>, keep: Proposal -> bool)
    ensures forall p :: p in Retain(ps, keep) <==> p in ps && keep(p)
  {
    if ps != [] {
      RetainKeepsMembers(ps[1..], keep);
      assert ps == [ps[0]] + ps[1..];
    }
  }

  lemma {:induction false} RetainKeepsOnePerSegment(ps: seq<Proposal>, keep: Proposal -> bool)
    requires OnePerSegment(ps)
    ensures OnePerSegment(Retain(ps, keep))
  {
    if ps != [] {
      RetainKeepsOnePerSegment(ps[1..], keep);
      RetainKeepsMembers(ps[1..], keep);
      var rest := Retain(ps[1..], keep);
      forall j | 0 <= j < |rest| ensures rest[j].segIndex != ps[0].segIndex {
        assert rest[j] in ps[1..];
      }
    }
  }
}
