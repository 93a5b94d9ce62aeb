/** Which rows a collection evicts, in terms of the rows' own columns. */
module Collection {
  import opened Store

  /** Unpinned, unreachable and past the grace. */
  predicate Collectable(rows: Rows, g: Sweep, id: RefId) {
    id in rows && !rows[id].pinned && id !in g.reachable && g.now - rows[id].createdAt > g.grace
  }

  /** Accessed earlier, or at the same time under a smaller digest. */
  predicate Staler(a: Row, aId: RefId, b: Row, bId: RefId) {
    a.lastAccessAt < b.lastAccessAt || (a.lastAccessAt == b.lastAccessAt && aId < bId)
  }

  /** The bytes counted against the cap are a sum. */
  lemma TotalIsASum(rows: Rows, ids: set<RefId>, id: RefId)
    requires ids <= rows.Keys && id in rows && id !in ids
    ensures Total(rows, {}) == 0
    ensures Total(rows, ids + {id}) == Total(rows, ids) + rows[id].byteLen
  {
    TotalWithout(rows, ids + {id}, id);
    assert ids + {id} - {id} == ids;
  }

  /** A row goes exactly when it is collectable and the unpinned unreachable rows, less every staler
      collectable one, still take more than the cap. */
  lemma EvictedIff(rows: Rows, g: Sweep, id: RefId)
    requires id in rows
    ensures id !in GcRows(rows, g) <==>
            Collectable(rows, g, id) &&
            Total(rows, set e | e in rows && !rows[e].pinned && e !in g.reachable &&
                                !(Collectable(rows, g, e) && Staler(rows[e], e, rows[id], id))) > g.cap
    ensures id in GcRows(rows, g) ==> GcRows(rows, g)[id] == rows[id]
  {
    var left := set e | e in rows && !rows[e].pinned && e !in g.reachable &&
                        !(Collectable(rows, g, e) && Staler(rows[e], e, rows[id], id));
    assert left == Unreachable(rows, g) - Older(rows, g, id);
  }

  /** The unpinned unreachable rows of `rows` still in `kept`. */
  function Counted(rows: Rows, kept: Rows, g: Sweep): set<RefId> {
    set e | e in rows && e in kept && !rows[e].pinned && e !in g.reachable
  }

  /** If a collectable row is kept, what is left to count is within the cap, and all that is gone was staler. */
  lemma KeptWithinCap(rows: Rows, g: Sweep, id: RefId)
    requires Collectable(rows, g, id) && id in GcRows(rows, g)
    ensures Total(rows, Counted(rows, GcRows(rows, g), g)) <= g.cap
    ensures forall gone :: gone in rows && gone !in GcRows(rows, g) ==> Staler(rows[gone], gone, rows[id], id)
  {
    assert id in Eligible(rows, g) * GcRows(rows, g).Keys;
    GcReachesCap(rows, g);
    assert Counted(rows, GcRows(rows, g), g) == Unreachable(rows, g) * GcRows(rows, g).Keys;
    forall gone | gone in rows && gone !in GcRows(rows, g) ensures Staler(rows[gone], gone, rows[id], id) {
      GcTakesOldest(rows, g, gone, id);
    }
  }

  /** With a collectable row all staler ones go too. */
  lemma StalerGoFirst(rows: Rows, g: Sweep, id: RefId, staler: RefId)
    requires id in rows && id !in GcRows(rows, g)
    requires Collectable(rows, g, staler) && Staler(rows[staler], staler, rows[id], id)
    ensures staler !in GcRows(rows, g)
  {
    if staler in GcRows(rows, g) { KeptWithinCap(rows, g, staler); }
  }

  /** Having been read does not save a row: put at 0, read at 10, collected at 10000 with an hour's grace
      and no room. */
  lemma StaleReadIsCollected(id: RefId, bytes: Bytes, session: string)
    requires bytes != []
    ensures var rows := RetrieveRows(PutRows(map[], id, bytes, session, 0.0), id, session, 10.0);
            Answer(rows, id, session) == Hit(bytes, 2) && GcRows(rows, Sweep({}, 3600.0, 0, 10000.0)) == map[]
  {
    var rows := RetrieveRows(PutRows(map[], id, bytes, session, 0.0), id, session, 10.0);
    var g := Sweep({}, 3600.0, 0, 10000.0);
    var left := set e | e in rows && !rows[e].pinned && e !in g.reachable &&
                        !(Collectable(rows, g, e) && Staler(rows[e], e, rows[id], id));
    assert rows.Keys == {id} && left == {id};
    TotalIsASum(rows, {}, id);
    assert {} + {id} == left;
    EvictedIff(rows, g, id);
  }
}
