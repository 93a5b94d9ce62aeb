/** The content-addressed store: rows keyed by the digest of their bytes, scoped retrieval and the
    collector. The digest is a parameter; times are reals. */
module Store {
  import opened Basics

  type Bytes = seq<bv8>

  /** A digest, read as the number its 64 hexadecimal digits spell: digests compare as texts the way
      these numbers compare. */
  type RefId = nat

  datatype Row = Row(original: Bytes, byteLen: nat, owner: string, createdAt: real, lastAccessAt: real,
                     accessCount: nat, pinned: bool)

  type Rows = map<RefId, Row>

  datatype Record = Record(id: RefId, byteLen: nat, session: string, createdAt: real)

  datatype Retrieved = Miss | Hit(original: Bytes, accessCount: nat)

  // ---- statements on the table ----

  function PutRows(rows: Rows, id: RefId, bytes: Bytes, session: string, now: real): Rows {
    if id in rows then rows else rows[id := Row(bytes, |bytes|, session, now, now, 0, false)]
  }

  function Touch(rows: Rows, id: RefId, now: real): Rows
    requires id in rows
  {
    rows[id := rows[id].(accessCount := rows[id].accessCount + 1, lastAccessAt := now)]
  }

  function MaterializeRows(rows: Rows, id: RefId, now: real): Rows {
    if id in rows then Touch(rows, id, now) else rows
  }

  function RetrieveRows(rows: Rows, id: RefId, session: string, now: real): Rows {
    if id in rows && rows[id].owner == session then Touch(rows, id, now) else rows
  }

  function Answer(rows: Rows, id: RefId, session: string): Retrieved {
    if id in rows && rows[id].owner == session then Hit(rows[id].original, rows[id].accessCount + 1) else Miss
  }

  // ---- what a collection evicts ----

  datatype Sweep = Sweep(reachable: set<RefId>, grace: real, cap: nat, now: real)

  function Unreachable(rows: Rows, g: Sweep): set<RefId> {
    set id | id in rows && !rows[id].pinned && id !in g.reachable
  }

  function Eligible(rows: Rows, g: Sweep): set<RefId> {
    set id | id in Unreachable(rows, g) && g.now - rows[id].createdAt > g.grace
  }

  /** Least recently accessed first, ties by digest. */
  predicate Before(rows: Rows, a: RefId, b: RefId) {
    a in rows && b in rows &&
    (rows[a].lastAccessAt < rows[b].lastAccessAt || (rows[a].lastAccessAt == rows[b].lastAccessAt && a < b))
  }

  function Older(rows: Rows, g: Sweep, id: RefId): set<RefId> {
    set e | e in Eligible(rows, g) && Before(rows, e, id)
  }

  ghost function Total(rows: Rows, ids: set<RefId>): nat
    requires ids <= rows.Keys
  {
    if ids == {} then 0
    else
      var id :| id in ids;
      rows[id].byteLen + Total(rows, ids - {id})
  }

  /** An eligible row goes exactly when evicting all older ones still leaves more than the cap. */
  ghost predicate Doomed(rows: Rows, g: Sweep, id: RefId) {
    id in Eligible(rows, g) && Total(rows, Unreachable(rows, g) - Older(rows, g, id)) > g.cap
  }

  ghost function GcRows(rows: Rows, g: Sweep): Rows {
    map id | id in rows && !Doomed(rows, g, id) :: rows[id]
  }

  lemma {:induction false} TotalWithout(rows: Rows, ids: set<RefId>, id: RefId)
    requires ids <= rows.Keys && id in ids
    ensures Total(rows, ids) == rows[id].byteLen + Total(rows, ids - {id})
  {
    var first :| first in ids && Total(rows, ids) == rows[first].byteLen + Total(rows, ids - {first});
    if first != id {
      TotalWithout(rows, ids - {first}, id);
      TotalWithout(rows, ids - {id}, first);
      assert ids - {first} - {id} == ids - {id} - {first};
    }
  }

  lemma {:induction false} TotalGrows(rows: Rows, small: set<RefId>, big: set<RefId>)
    requires small <= big <= rows.Keys
    ensures Total(rows, small) <= Total(rows, big)
  {
    if small == big {
    } else {
      var id :| id in big && id !in small;
      TotalWithout(rows, big, id);
      TotalGrows(rows, small, big - {id});
    }
  }

  // ---- sorting candidates ----

  predicate Distinct(ids: seq<RefId>) { forall i, j :: 0 <= i < j < |ids| ==> ids[i] != ids[j] }

  function Elements(ids: seq<RefId>): set<RefId> { set id | id in ids }

  predicate Oldest(rows: Rows, ids: seq<RefId>) {
    forall i, j :: 0 <= i < j < |ids| ==> Before(rows, ids[i], ids[j])
  }

  function Insert(rows: Rows, id: RefId, ids: seq<RefId>): seq<RefId> {
    if ids == [] || Before(rows, id, ids[0]) then [id] + ids else [ids[0]] + Insert(rows, id, ids[1..])
  }

  lemma {:induction false} InsertSorts(rows: Rows, id: RefId, ids: seq<RefId>)
    requires id in rows && Elements(ids) <= rows.Keys && Oldest(rows, ids) && id !in ids
    ensures Elements(Insert(rows, id, ids)) == Elements(ids) + {id} && Oldest(rows, Insert(rows, id, ids))
  {
    var r := Insert(rows, id, ids);
    if ids != [] {
      assert ids[0] in Elements(ids);
      if Before(rows, id, ids[0]) {
        assert Elements(r) == {id} + Elements(ids);
        assert forall k :: 0 < k < |ids| ==> Before(rows, ids[0], ids[k]);
      } else {
        var rest := Insert(rows, id, ids[1..]);
        assert Elements(ids) == {ids[0]} + Elements(ids[1..]);
        InsertSorts(rows, id, ids[1..]);
        assert Elements(r) == {ids[0]} + Elements(rest);
        forall k | 0 <= k < |rest| ensures Before(rows, ids[0], rest[k]) {
          assert rest[k] in Elements(rest);
        }
      }
    }
  }

  /** What sorting by last access, then digest, leaves of a list without repetitions. */
  function SortOldest(rows: Rows, ids: seq<RefId>): (r: seq<RefId>)
    requires Elements(ids) <= rows.Keys && Distinct(ids)
    ensures Elements(r) == Elements(ids)
    ensures Oldest(rows, r)
  {
    if ids == [] then []
    else
      assert Elements(ids) == {ids[0]} + Elements(ids[1..]);
      InsertSorts(rows, ids[0], SortOldest(rows, ids[1..]));
      Insert(rows, ids[0], SortOldest(rows, ids[1..]))
  }

  // ---- the store ----

  class RefStore {
    const address: Bytes -> RefId
    var rows: Rows

    constructor (address: Bytes -> RefId)
      ensures rows == map[] && this.address == address
    {
      this.address := address;
      rows := map[];
    }

    method Put(bytes: Bytes, session: string, now: real) returns (record: Record)
      modifies this
      ensures rows == PutRows(old(rows), address(bytes), bytes, session, now)
      ensures record == Record(address(bytes), |bytes|, session, now)
    {
      record := Record(address(bytes), |bytes|, session, now);
      if record.id !in rows {
        rows := rows[record.id := Row(bytes, |bytes|, session, now, now, 0, false)];
      }
    }

    method Materialize(id: RefId, now: real) returns (found: Option<(Bytes, nat)>)
      modifies this
      ensures rows == MaterializeRows(old(rows), id, now)
      ensures found == if id in old(rows) then Some((old(rows)[id].original, old(rows)[id].accessCount + 1)) else None
    {
      if id !in rows { return None; }
      rows := Touch(rows, id, now);
      found := Some((rows[id].original, rows[id].accessCount));
    }

    method Retrieve(id: RefId, session: string, now: real) returns (r: Retrieved)
      modifies this
      ensures rows == RetrieveRows(old(rows), id, session, now)
      ensures r == Answer(old(rows), id, session)
    {
      if id !in rows || rows[id].owner != session { return Miss; }
      rows := Touch(rows, id, now);
      r := Hit(rows[id].original, rows[id].accessCount);
    }

    /** The unpinned rows, in whatever order the table yields them. */
    method Candidates() returns (ids: seq<RefId>)
      ensures Distinct(ids) && Elements(ids) == set id | id in rows && !rows[id].pinned
    {
      var todo := rows.Keys;
      ids := [];
      while todo != {}
        invariant todo <= rows.Keys && Distinct(ids)
        invariant Elements(ids) == set id | id in rows.Keys - todo && !rows[id].pinned
        decreases |todo|
      {
        var id :| id in todo;
        todo := todo - {id};
        if !rows[id].pinned {
          assert Elements(ids + [id]) == Elements(ids) + {id};
          assert id !in Elements(ids);
          ids := ids + [id];
        }
      }
    }

    /** The unreachable candidates' bytes and, oldest first, those past their grace. */
    method Survey(g: Sweep) returns (live: nat, eligible: seq<RefId>)
      ensures live == Total(rows, Unreachable(rows, g))
      ensures Elements(eligible) == Eligible(rows, g) && Oldest(rows, eligible)
    {
      var candidates := Candidates();
      live, eligible := 0, [];
      ghost var seen := {};
      for i := 0 to |candidates|
        invariant Elements(candidates[..i]) <= rows.Keys && Distinct(eligible)
        invariant seen == Elements(candidates[..i]) - g.reachable && seen <= rows.Keys
        invariant live == Total(rows, seen)
        invariant Elements(eligible) == set id | id in seen && g.now - rows[id].createdAt > g.grace
      {
        var id := candidates[i];
        assert id in Elements(candidates);
        assert candidates[..i + 1] == candidates[..i] + [id];
        assert id !in candidates[..i];
        if id !in g.reachable {
          assert seen + {id} - {id} == seen;
          TotalWithout(rows, seen + {id}, id);
          seen := seen + {id};
          live := live + rows[id].byteLen;
          if g.now - rows[id].createdAt > g.grace {
            assert id !in Elements(eligible);
            assert Elements(eligible + [id]) == Elements(eligible) + {id};
            eligible := eligible + [id];
          }
        }
      }
      assert candidates[..|candidates|] == candidates;
      assert seen == Unreachable(rows, g);
      eligible := SortOldest(rows, eligible);
    }

    /** The oldest candidates, as many as it takes. */
    method Victims(g: Sweep) returns (victims: seq<RefId>)
      ensures Distinct(victims) && Elements(victims) <= rows.Keys
      ensures GcRows(rows, g) == rows - Elements(victims)
    {
      var remaining, eligible := Survey(g);
      hide Eligible, Unreachable, Older, Oldest, Total, Doomed, Distinct, Elements;
      var n := 0;
      NothingChosen(rows, g, eligible);
      while n < |eligible| && remaining > g.cap
        invariant n <= |eligible|
        invariant Chosen(rows, g, eligible, n)
        invariant remaining == Remaining(rows, g, eligible[..n])
      {
        OneMore(rows, g, eligible, n);
        remaining := remaining - rows[eligible[n]].byteLen;
        n := n + 1;
      }
      PrefixIsDoomed(rows, g, eligible, n);
      victims := eligible[..n];
    }

    method Gc(g: Sweep) returns (deleted: nat)
      modifies this
      ensures rows == GcRows(old(rows), g)
      ensures deleted == |old(rows)| - |rows|
    {
      var victims := Victims(g);
      hide GcRows, Elements, Distinct;
      ghost var before := rows;
      deleted := 0;
      NothingDeleted(rows, victims);
      while deleted < |victims|
        invariant deleted <= |victims|
        invariant rows == Without(before, victims, deleted)
        invariant |rows| == |before| - deleted
      {
        DeleteOne(before, victims, deleted);
        rows := rows - {victims[deleted]};
        deleted := deleted + 1;
      }
      assert victims[..|victims|] == victims;
    }
  }

  function Without(rows: Rows, ids: seq<RefId>, n: nat): Rows
    requires n <= |ids|
  {
    rows - Elements(ids[..n])
  }

  lemma NothingDeleted(rows: Rows, ids: seq<RefId>)
    ensures Without(rows, ids, 0) == rows
  {
    assert Elements(ids[..0]) == {};
  }

  lemma DeleteOne(rows: Rows, ids: seq<RefId>, n: nat)
    requires Distinct(ids) && Elements(ids) <= rows.Keys && n < |ids|
    ensures var left := Without(rows, ids, n);
            left - {ids[n]} == Without(rows, ids, n + 1) && |left - {ids[n]}| == |left| - 1
  {
    var id := ids[n];
    assert ids[..n + 1] == ids[..n] + [id];
    assert Elements(ids[..n + 1]) == Elements(ids[..n]) + {id};
    assert id in Elements(ids) && id !in Elements(ids[..n]);
    var left := Without(rows, ids, n);
    assert (left - {id}).Keys == left.Keys - {id};
  }

  /** The bytes of unreachable rows that would remain without these. */
  ghost function Remaining(rows: Rows, g: Sweep, gone: seq<RefId>): nat {
    Total(rows, Unreachable(rows, g) - Elements(gone))
  }

  /** The first `n` candidates, oldest first, are all doomed. */
  ghost predicate Chosen(rows: Rows, g: Sweep, ids: seq<RefId>, n: nat) {
    n <= |ids| && Elements(ids) == Eligible(rows, g) && Oldest(rows, ids) &&
    forall k :: 0 <= k < n ==> Doomed(rows, g, ids[k])
  }

  lemma NothingChosen(rows: Rows, g: Sweep, ids: seq<RefId>)
    requires Elements(ids) == Eligible(rows, g) && Oldest(rows, ids)
    ensures Chosen(rows, g, ids, 0) && Remaining(rows, g, ids[..0]) == Total(rows, Unreachable(rows, g))
  {
    assert Unreachable(rows, g) - Elements(ids[..0]) == Unreachable(rows, g);
  }

  /** Over the cap, the next candidate is doomed too, and its bytes are still in the sum. */
  lemma OneMore(rows: Rows, g: Sweep, ids: seq<RefId>, n: nat)
    requires Chosen(rows, g, ids, n) && n < |ids| && Remaining(rows, g, ids[..n]) > g.cap
    ensures Chosen(rows, g, ids, n + 1) && ids[n] in rows
    ensures Remaining(rows, g, ids[..n]) == rows[ids[n]].byteLen + Remaining(rows, g, ids[..n + 1])
  {
    OlderIsPrefix(rows, g, ids, n);
    assert ids[n] in Elements(ids) && ids[n] !in ids[..n];
    assert ids[..n + 1] == ids[..n] + [ids[n]];
    var left := Unreachable(rows, g) - Elements(ids[..n]);
    TotalWithout(rows, left, ids[n]);
    assert Unreachable(rows, g) - Elements(ids[..n + 1]) == left - {ids[n]};
  }

  lemma OlderIsPrefix(rows: Rows, g: Sweep, ids: seq<RefId>, n: nat)
    requires Elements(ids) == Eligible(rows, g) && Oldest(rows, ids) && n < |ids|
    ensures Older(rows, g, ids[n]) == Elements(ids[..n])
    ensures Distinct(ids)
  {
    assert ids[n] in Elements(ids);
    forall e ensures e in Older(rows, g, ids[n]) <==> e in ids[..n] {
      if e in Older(rows, g, ids[n]) {
        assert e in Elements(ids);
        var k :| 0 <= k < |ids| && ids[k] == e;
        assert k < n && ids[..n][k] == e;
      }
      if e in ids[..n] {
        var k :| 0 <= k < n && ids[k] == e;
        assert e in Elements(ids);
      }
    }
  }

  /** When the cap is met, or no candidate is left, the doomed rows are those already chosen. */
  lemma PrefixIsDoomed(rows: Rows, g: Sweep, ids: seq<RefId>, n: nat)
    requires Chosen(rows, g, ids, n)
    requires n == |ids| || Remaining(rows, g, ids[..n]) <= g.cap
    ensures GcRows(rows, g) == rows - Elements(ids[..n])
    ensures Distinct(ids[..n]) && Elements(ids[..n]) <= rows.Keys
  {
    forall id | id in rows ensures Doomed(rows, g, id) <==> id in ids[..n] {
      if id in Elements(ids) {
        var k :| 0 <= k < |ids| && ids[k] == id;
        OlderIsPrefix(rows, g, ids, k);
        if k < n {
          assert ids[..n][k] == id;
        } else {
          assert forall j :: 0 <= j < n ==> ids[..n][j] == ids[..k][j];
          TotalGrows(rows, Unreachable(rows, g) - Elements(ids[..k]), Unreachable(rows, g) - Elements(ids[..n]));
          assert id !in ids[..n];
        }
      } else {
        assert forall k :: 0 <= k < n ==> ids[..n][k] in Elements(ids);
      }
    }
    forall i, j | 0 <= i < j < |ids| ensures ids[i] != ids[j] {
      assert ids[i] in Elements(ids) && Before(rows, ids[i], ids[j]);
    }
  }

  // ---- what a collection promises ----

  /** Reachable, pinned and young rows come through a collection unchanged. */
  lemma GcKeepsProtected(rows: Rows, g: Sweep, id: RefId)
    requires id in rows
    requires id in g.reachable || rows[id].pinned || g.now - rows[id].createdAt <= g.grace
    ensures id in GcRows(rows, g) && GcRows(rows, g)[id] == rows[id]
  {
  }

  /** What is evicted was accessed before every eligible row that is kept. */
  lemma GcTakesOldest(rows: Rows, g: Sweep, gone: RefId, kept: RefId)
    requires gone in rows && gone !in GcRows(rows, g)
    requires kept in Eligible(rows, g) && kept in GcRows(rows, g)
    ensures Before(rows, gone, kept)
  {
    if !Before(rows, gone, kept) {
      TotalGrows(rows, Unreachable(rows, g) - Older(rows, g, gone), Unreachable(rows, g) - Older(rows, g, kept));
    }
  }

  lemma OldestOf(rows: Rows, ids: set<RefId>, latest: bool) returns (id: RefId)
    requires ids != {} && ids <= rows.Keys
    ensures id in ids
    ensures forall e :: e in ids && e != id ==> if latest then Before(rows, e, id) else Before(rows, id, e)
    decreases ids
  {
    var some :| some in ids;
    if ids == {some} {
      id := some;
    } else {
      var rest := OldestOf(rows, ids - {some}, latest);
      id := if Before(rows, some, rest) == latest then rest else some;
      assert forall e :: e in ids && e != some ==> e in ids - {some};
    }
  }

  /** What is left that the collector may count: the unreachable rows it kept. */
  ghost function LeftOver(rows: Rows, g: Sweep): nat { Total(rows, Unreachable(rows, g) * GcRows(rows, g).Keys) }

  /** The collection goes on until the cap is met or nothing eligible is left. */
  lemma GcReachesCap(rows: Rows, g: Sweep)
    requires Eligible(rows, g) * GcRows(rows, g).Keys != {}
    ensures LeftOver(rows, g) <= g.cap
  {
    var kept := Eligible(rows, g) * GcRows(rows, g).Keys;
    var first := OldestOf(rows, kept, false);
    forall e ensures e in Older(rows, g, first) <==> e in rows.Keys - GcRows(rows, g).Keys {
      if e in Older(rows, g, first) { assert e !in kept; }
      if e in rows && e !in GcRows(rows, g) { GcTakesOldest(rows, g, e, first); }
    }
    assert Unreachable(rows, g) - Older(rows, g, first) == Unreachable(rows, g) * GcRows(rows, g).Keys;
  }

  lemma NothingGone(rows: Rows, g: Sweep)
    ensures rows.Keys - GcRows(rows, g).Keys == {} ==> GcRows(rows, g) == rows
  {
    var gone := rows.Keys - GcRows(rows, g).Keys;
    assert forall id :: id in rows && id !in GcRows(rows, g) ==> id in gone;
  }

  /** And not further: with its last victim back, the rows left over exceed the cap. */
  lemma GcStopsInTime(rows: Rows, g: Sweep) returns (last: RefId)
    requires GcRows(rows, g) != rows
    ensures last in rows && last !in GcRows(rows, g)
    ensures forall e :: e in rows && e !in GcRows(rows, g) && e != last ==> Before(rows, e, last)
    ensures LeftOver(rows, g) + rows[last].byteLen > g.cap
  {
    var gone := rows.Keys - GcRows(rows, g).Keys;
    NothingGone(rows, g);
    last := OldestOf(rows, gone, true);
    assert last in gone && Doomed(rows, g, last);
    var left := Unreachable(rows, g) * GcRows(rows, g).Keys;
    var withLast := left + {last};
    forall e | e in gone ensures e in Older(rows, g, last) + {last} {
      assert Doomed(rows, g, e);
    }
    assert Unreachable(rows, g) - Older(rows, g, last) <= withLast;
    TotalGrows(rows, Unreachable(rows, g) - Older(rows, g, last), withLast);
    TotalWithout(rows, withLast, last);
    assert withLast - {last} == left;
  }

  // ---- runs ----

  datatype Op =
    | Put(bytes: Bytes, session: string, now: real)
    | Materialize(id: RefId, now: real)
    | Retrieve(id: RefId, session: string, now: real)
    | Collect(sweep: Sweep)

  ghost function Step(address: Bytes -> RefId, rows: Rows, op: Op): Rows {
    match op
    case Put(bytes, session, now) => PutRows(rows, address(bytes), bytes, session, now)
    case Materialize(id, now) => MaterializeRows(rows, id, now)
    case Retrieve(id, session, now) => RetrieveRows(rows, id, session, now)
    case Collect(g) => GcRows(rows, g)
  }

  ghost function Run(address: Bytes -> RefId, ops: seq<Op>): Rows {
    if ops == [] then map[] else Step(address, Run(address, ops[..|ops| - 1]), ops[|ops| - 1])
  }

  /** A read of the row of `id` owned by `owner`. */
  predicate IsHit(op: Op, id: RefId, owner: string) {
    match op
    case Materialize(i, _) => i == id
    case Retrieve(i, session, _) => i == id && session == owner
    case _ => false
  }

  function Hits(ops: seq<Op>, id: RefId, owner: string): nat {
    if ops == [] then 0 else Hits(ops[..|ops| - 1], id, owner) + if IsHit(ops[|ops| - 1], id, owner) then 1 else 0
  }

  /** When the row was last read, or else put. */
  function LastRead(ops: seq<Op>, id: RefId, owner: string, born: real): real {
    if ops == [] then born
    else if IsHit(ops[|ops| - 1], id, owner) then ops[|ops| - 1].now
    else LastRead(ops[..|ops| - 1], id, owner, born)
  }

  /** The row of `id` was put at step `b` and has stayed since. */
  ghost predicate BornAt(address: Bytes -> RefId, ops: seq<Op>, id: RefId, b: nat) {
    b < |ops| && ops[b].Put? && address(ops[b].bytes) == id && id !in Run(address, ops[..b]) &&
    forall k :: b < k <= |ops| ==> id in Run(address, ops[..k])
  }

  ghost predicate TellsHistory(row: Row, put: Op, since: seq<Op>, id: RefId)
    requires put.Put?
  {
    row == Row(put.bytes, |put.bytes|, put.session, put.now, LastRead(since, id, put.session, put.now),
               Hits(since, id, put.session), false)
  }

  /** Every row of every run was put by some step that found its key free, has stayed since, and
      records exactly that put and the reads after it. */
  lemma {:induction false} RowTellsItsHistory(address: Bytes -> RefId, ops: seq<Op>, id: RefId) returns (b: nat)
    requires id in Run(address, ops)
    ensures BornAt(address, ops, id, b)
    ensures TellsHistory(Run(address, ops)[id], ops[b], ops[b + 1..], id)
    ensures forall a :: BornAt(address, ops, id, a) ==> a == b
    decreases |ops|
  {
    var init, last := ops[..|ops| - 1], ops[|ops| - 1];
    if id in Run(address, init) {
      b := RowTellsItsHistory(address, init, id);
      BornEarlier(address, ops, id, b);
      HistoryGrows(address, Run(address, init), last, ops[b], init[b + 1..], id);
      assert ops[b + 1..] == init[b + 1..] + [last];
    } else {
      b := |ops| - 1;
      assert ops[..|ops|] == ops;
      assert ops[b + 1..] == [];
    }
    forall a | BornAt(address, ops, id, a) ensures a == b { BirthIsUnique(address, ops, id, a, b); }
  }

  lemma BornEarlier(address: Bytes -> RefId, ops: seq<Op>, id: RefId, b: nat)
    requires ops != [] && id in Run(address, ops) && BornAt(address, ops[..|ops| - 1], id, b)
    ensures BornAt(address, ops, id, b)
  {
    hide Run;
    var init := ops[..|ops| - 1];
    assert init[..b] == ops[..b];
    forall k | b < k <= |ops| ensures id in Run(address, ops[..k]) {
      if k < |ops| { assert init[..k] == ops[..k]; } else { assert ops[..k] == ops; }
    }
  }

  lemma HistoryUnlessHit(since: seq<Op>, op: Op, id: RefId, owner: string, born: real)
    ensures Hits(since + [op], id, owner) == Hits(since, id, owner) + if IsHit(op, id, owner) then 1 else 0
    ensures LastRead(since + [op], id, owner, born) == if IsHit(op, id, owner) then op.now
            else LastRead(since, id, owner, born)
  {
    assert (since + [op])[..|since|] == since;
  }

  /** A step that leaves a row in place changes it only by counting a hit. */
  lemma StepOnRow(address: Bytes -> RefId, rows: Rows, op: Op, id: RefId)
    requires id in rows && id in Step(address, rows, op)
    ensures Step(address, rows, op)[id] ==
            if IsHit(op, id, rows[id].owner) then
              rows[id].(accessCount := rows[id].accessCount + 1, lastAccessAt := op.now)
            else rows[id]
  {
    hide Doomed;
  }

  lemma HistoryGrows(address: Bytes -> RefId, rows: Rows, op: Op, put: Op, since: seq<Op>, id: RefId)
    requires id in rows && put.Put? && TellsHistory(rows[id], put, since, id)
    requires id in Step(address, rows, op)
    ensures TellsHistory(Step(address, rows, op)[id], put, since + [op], id)
  {
    hide Step, Hits, LastRead, IsHit;
    StepOnRow(address, rows, op, id);
    HistoryUnlessHit(since, op, id, put.session, put.now);
  }

  /** Two births of one row are the same birth: its owner is the first session to put it since its
      last eviction. */
  lemma BirthIsUnique(address: Bytes -> RefId, ops: seq<Op>, id: RefId, a: nat, b: nat)
    requires BornAt(address, ops, id, a) && BornAt(address, ops, id, b)
    ensures a == b
  {
  }

  /** As long as every collection reaches it, or finds it in its grace, a row stays with its bytes and
      its owner, whatever else the run does. */
  lemma {:induction false} ProtectedRowsStay(address: Bytes -> RefId, ops: seq<Op>, b: nat, id: RefId)
    requires b <= |ops| && id in Run(address, ops[..b])
    requires var row := Run(address, ops[..b])[id];
             forall k :: b <= k < |ops| && ops[k].Collect? ==>
               id in ops[k].sweep.reachable || row.pinned || ops[k].sweep.now - row.createdAt <= ops[k].sweep.grace
    ensures id in Run(address, ops)
    ensures var row, now := Run(address, ops[..b])[id], Run(address, ops)[id];
            now.original == row.original && now.owner == row.owner && now.createdAt == row.createdAt &&
            now.pinned == row.pinned && row.accessCount <= now.accessCount
    decreases |ops|
  {
    if b == |ops| {
      assert ops[..b] == ops;
    } else {
      var init, last := ops[..|ops| - 1], ops[|ops| - 1];
      assert init[..b] == ops[..b];
      ProtectedRowsStay(address, init, b, id);
      var rows := Run(address, init);
      ProtectedStep(address, rows, last, id);
      StepOnRow(address, rows, last, id);
      hide Step;
    }
  }

  lemma ProtectedStep(address: Bytes -> RefId, rows: Rows, op: Op, id: RefId)
    requires id in rows
    requires op.Collect? ==>
               id in op.sweep.reachable || rows[id].pinned || op.sweep.now - rows[id].createdAt <= op.sweep.grace
    ensures id in Step(address, rows, op)
  {
    if op.Collect? { GcKeepsProtected(rows, op.sweep, id); }
  }

  lemma {:induction false} KeysAreAddresses(address: Bytes -> RefId, ops: seq<Op>, id: RefId)
    requires id in Run(address, ops)
    ensures id == address(Run(address, ops)[id].original)
  {
    var b := RowTellsItsHistory(address, ops, id);
  }

  /** As long as no payload put before collides with these bytes, asking for their address is exact:
      the owner gets them back, and anyone else misses and leaves the store as it was. */
  lemma RetrieveIsScoped(address: Bytes -> RefId, ops: seq<Op>, bytes: Bytes, session: string, now: real)
    requires forall k :: 0 <= k < |ops| && ops[k].Put? && address(ops[k].bytes) == address(bytes) ==>
             ops[k].bytes == bytes
    ensures var rows, id := Run(address, ops), address(bytes);
            if id in rows && rows[id].owner == session then
              Answer(rows, id, session) == Hit(bytes, rows[id].accessCount + 1) &&
              RetrieveRows(rows, id, session, now) ==
                  rows[id := rows[id].(accessCount := rows[id].accessCount + 1, lastAccessAt := now)]
            else Answer(rows, id, session) == Miss && RetrieveRows(rows, id, session, now) == rows
  {
    hide Run, Hits, LastRead;
    var rows, id := Run(address, ops), address(bytes);
    if id in rows { var b := RowTellsItsHistory(address, ops, id); }
  }

  /** The second session to put a payload is told its address and yet misses it there. */
  lemma SecondPutterMisses(address: Bytes -> RefId, ops: seq<Op>, bytes: Bytes, session: string, now: real)
    requires address(bytes) in Run(address, ops) && Run(address, ops)[address(bytes)].owner != session
    ensures var rows := Run(address, ops + [Op.Put(bytes, session, now)]);
            rows == Run(address, ops) && Answer(rows, address(bytes), session) == Miss
  {
    assert (ops + [Op.Put(bytes, session, now)])[..|ops|] == ops;
  }

  /** Two sessions putting the same bytes get there at once: the first hits, the second misses. */
  lemma TwoPutsOneOwner(address: Bytes -> RefId, bytes: Bytes, first: string, second: string, t1: real, t2: real)
    requires first != second
    ensures var rows := Run(address, [Op.Put(bytes, first, t1), Op.Put(bytes, second, t2)]);
            Answer(rows, address(bytes), first) == Hit(bytes, 1) && Answer(rows, address(bytes), second) == Miss
  {
    var one := [Op.Put(bytes, first, t1)];
    assert one[..0] == [];
    assert Run(address, one) == PutRows(map[], address(bytes), bytes, first, t1);
    assert one + [Op.Put(bytes, second, t2)] == [Op.Put(bytes, first, t1), Op.Put(bytes, second, t2)];
    SecondPutterMisses(address, one, bytes, second, t2);
  }
}
