/** Crash-resumable re-keying to a new collation (crates/elyra-engine/src/collmig.rs). */
module CollMig {
  import opened Wrappers
  import opened Bytes
  import opened Values
  import opened Scan

  const VERSION := 2
  const BATCH := 4096

  type Row = seq<Value>

  /**
   * What the migration takes from a table's definition. `active`: the definition loads and some key or
   * indexed column is not binary. `refold`: the clustered key holds text whose folding changed. `home`: the
   * key encoded from the row's own primary key (`None`: not encodable). `entries`: the row's index entries.
   */
  datatype TableDef = TableDef(
    active: bool,
    refold: Row -> bool,
    home: Row -> Option<bytes>,
    entries: (Row, bytes) -> map<bytes, bytes>)

  datatype Table = Table(rows: map<bytes, Row>, index: map<bytes, bytes>)

  /** `Done` and `Clash` are the source's Ok and Err; `Crashed`: the process stopped between two commits. */
  datatype Outcome = Done | Clash | Crashed

  // -------------------------------------------------------------- where rows belong

  /** The key a row ends up at: the key of its own primary key if that was refolded, else where it is. */
  ghost function Place(def: TableDef, k: bytes, row: Row): bytes {
    if def.refold(row) && def.home(row).Some? then def.home(row).value else k
  }

  ghost predicate Placed(def: TableDef, k: bytes, row: Row) {
    Place(def, k, row) == k
  }

  ghost function PickKey(rows: map<bytes, Row>): (k: bytes)
    requires rows != map[]
    ensures k in rows
  {
    var k :| k in rows; k
  }

  ghost function Item(def: TableDef, rows: map<bytes, Row>, k: bytes): multiset<(bytes, Row)>
    requires k in rows
  {
    multiset{(Place(def, k, rows[k]), rows[k])}
  }

  /** Every row with the place it belongs to, counting duplicates: what no commit may change. */
  ghost function Bag(def: TableDef, rows: map<bytes, Row>): multiset<(bytes, Row)>
    decreases |rows|
  {
    if rows == map[] then multiset{} else
    var k := PickKey(rows);
    Item(def, rows, k) + Bag(def, rows - {k})
  }

  lemma {:induction false} Swap(a: multiset<(bytes, Row)>, b: multiset<(bytes, Row)>, c: multiset<(bytes, Row)>)
    ensures a + (b + c) == b + (a + c)
  {
  }

  lemma {:induction false} BagRemove(def: TableDef, rows: map<bytes, Row>, k: bytes)
    requires k in rows
    ensures Bag(def, rows) == Item(def, rows, k) + Bag(def, rows - {k})
    decreases |rows|
  {
    var j := PickKey(rows);
    if j != k {
      var rest := rows - {j} - {k};
      assert rest == rows - {k} - {j};
      BagRemove(def, rows - {j}, k);
      BagRemove(def, rows - {k}, j);
      Swap(Item(def, rows, j), Item(def, rows, k), Bag(def, rest));
    }
  }

  /** Moving a row to a free key. */
  ghost function Move(rows: map<bytes, Row>, k: bytes, to: bytes): map<bytes, Row>
    requires k in rows && to !in rows
  {
    (rows - {k})[to := rows[k]]
  }

  lemma {:induction false} MoveKeepsBag(def: TableDef, rows: map<bytes, Row>, k: bytes)
    requires k in rows && Place(def, k, rows[k]) !in rows
    ensures Bag(def, Move(rows, k, Place(def, k, rows[k]))) == Bag(def, rows)
  {
    var to := Place(def, k, rows[k]);
    var moved := Move(rows, k, to);
    assert moved - {to} == rows - {k};
    assert Item(def, moved, to) == Item(def, rows, k);
    BagRemove(def, rows, k);
    BagRemove(def, moved, to);
  }

  ghost function Unplaced(def: TableDef, rows: map<bytes, Row>): set<bytes> {
    set k | k in rows && !Placed(def, k, rows[k])
  }

  lemma {:induction false} MoveUnplaced(def: TableDef, rows: map<bytes, Row>, k: bytes)
    requires k in rows && !Placed(def, k, rows[k]) && Place(def, k, rows[k]) !in rows
    ensures Unplaced(def, Move(rows, k, Place(def, k, rows[k]))) == Unplaced(def, rows) - {k}
    ensures k in Unplaced(def, rows)
  {
  }

  /** Every row that must move can: its key is encodable, nobody sits at its place and nobody else wants it. */
  ghost predicate Free(def: TableDef, rows: map<bytes, Row>) {
    && (forall k | k in rows && def.refold(rows[k]) :: def.home(rows[k]).Some?)
    && (forall k | k in rows && !Placed(def, k, rows[k]) :: Place(def, k, rows[k]) !in rows)
    && (forall j, k | j in rows && k in rows && j != k && !Placed(def, j, rows[j]) && !Placed(def, k, rows[k]) ::
          Place(def, j, rows[j]) != Place(def, k, rows[k]))
  }

  lemma {:induction false} MoveKeepsFree(def: TableDef, rows: map<bytes, Row>, k: bytes)
    requires Free(def, rows) && k in rows && !Placed(def, k, rows[k]) && Place(def, k, rows[k]) !in rows
    ensures Free(def, Move(rows, k, Place(def, k, rows[k])))
  {
  }

  /** Rows at their places. */
  ghost predicate AtHome(def: TableDef, rows: map<bytes, Row>, seen: set<bytes>) {
    seen <= rows.Keys && forall k | k in seen :: Placed(def, k, rows[k])
  }

  // ---------------------------------------------------------------- index contents

  /** No two rows share an index key, once each is at its place. */
  ghost predicate NoClash(def: TableDef, rows: map<bytes, Row>) {
    forall j, k | j in rows && k in rows && j != k ::
      PlacedEntries(def, rows, j).Keys !! PlacedEntries(def, rows, k).Keys
  }

  ghost function PlacedEntries(def: TableDef, rows: map<bytes, Row>, k: bytes): map<bytes, bytes>
    requires k in rows
  {
    def.entries(rows[k], Place(def, k, rows[k]))
  }

  lemma {:induction false} MoveKeepsNoClash(def: TableDef, rows: map<bytes, Row>, k: bytes)
    requires k in rows && Place(def, k, rows[k]) !in rows
    ensures NoClash(def, Move(rows, k, Place(def, k, rows[k]))) <==> NoClash(def, rows)
  {
    var to := Place(def, k, rows[k]);
    var moved := Move(rows, k, to);
    if NoClash(def, rows) {
      forall i, j | i in moved && j in moved && i != j
        ensures PlacedEntries(def, moved, i).Keys !! PlacedEntries(def, moved, j).Keys
      {
        var i0, j0 := if i == to then k else i, if j == to then k else j;
        assert PlacedEntries(def, moved, i) == PlacedEntries(def, rows, i0);
        assert PlacedEntries(def, moved, j) == PlacedEntries(def, rows, j0);
      }
    }
    if NoClash(def, moved) {
      forall i, j | i in rows && j in rows && i != j
        ensures PlacedEntries(def, rows, i).Keys !! PlacedEntries(def, rows, j).Keys
      {
        var i0, j0 := if i == k then to else i, if j == k then to else j;
        assert PlacedEntries(def, rows, i) == PlacedEntries(def, moved, i0);
        assert PlacedEntries(def, rows, j) == PlacedEntries(def, moved, j0);
      }
    }
  }

  ghost predicate Holds(index: map<bytes, bytes>, entries: map<bytes, bytes>) {
    forall ik | ik in entries :: ik in index && index[ik] == entries[ik]
  }

  /** The rows in `seen` are at their places, and the index holds exactly their entries. */
  ghost predicate Indexed(def: TableDef, rows: map<bytes, Row>, index: map<bytes, bytes>, seen: set<bytes>) {
    && seen <= rows.Keys
    && (forall k | k in seen :: Placed(def, k, rows[k]) && Holds(index, def.entries(rows[k], k)))
    && (forall ik | ik in index :: exists k | k in seen :: Owns(def, rows, k, ik, index[ik]))
  }

  ghost predicate Owns(def: TableDef, rows: map<bytes, Row>, k: bytes, ik: bytes, v: bytes)
    requires k in rows
  {
    ik in def.entries(rows[k], k) && def.entries(rows[k], k)[ik] == v
  }

  lemma {:induction false} VisitKeepsIndexed(def: TableDef, rows: map<bytes, Row>, index: map<bytes, bytes>,
                                             seen: set<bytes>, k: bytes)
    requires NoClash(def, rows) && Indexed(def, rows, index, seen) && k in rows && Placed(def, k, rows[k])
    ensures Indexed(def, rows, index + def.entries(rows[k], k), seen + {k})
  {
    var more := def.entries(rows[k], k);
    var index' := index + more;
    forall j | j in seen + {k} ensures Placed(def, j, rows[j]) && Holds(index', def.entries(rows[j], j)) {
      if j != k {
        assert PlacedEntries(def, rows, j).Keys !! PlacedEntries(def, rows, k).Keys;
      }
    }
    forall ik | ik in index' ensures exists j | j in seen + {k} :: Owns(def, rows, j, ik, index'[ik]) {
      if ik in more {
        assert Owns(def, rows, k, ik, index'[ik]);
      } else {
        var j :| j in seen && Owns(def, rows, j, ik, index[ik]);
        assert Owns(def, rows, j, ik, index'[ik]);
      }
    }
  }

  lemma {:induction false} MoveKeepsIndexed(def: TableDef, rows: map<bytes, Row>, index: map<bytes, bytes>,
                                            seen: set<bytes>, k: bytes)
    requires Indexed(def, rows, index, seen) && k in rows && !Placed(def, k, rows[k]) && Place(def, k, rows[k]) !in rows
    ensures Indexed(def, Move(rows, k, Place(def, k, rows[k])), index, seen)
  {
    var moved := Move(rows, k, Place(def, k, rows[k]));
    forall j | j in seen ensures j in moved && moved[j] == rows[j] {
      assert j != k;
    }
    forall ik | ik in index ensures exists j | j in seen :: Owns(def, moved, j, ik, index[ik]) {
      var j :| j in seen && Owns(def, rows, j, ik, index[ik]);
      assert Owns(def, moved, j, ik, index[ik]);
    }
  }

  /** A migrated table: every row at its place, and the index exactly the entries of all rows. */
  ghost predicate Migrated(def: TableDef, t: Table) {
    Indexed(def, t.rows, t.index, t.rows.Keys)
  }

  /** An index entry points to its row. */
  ghost predicate Pointing(def: TableDef) {
    forall row, k, ik | ik in def.entries(row, k) :: def.entries(row, k)[ik] == k
  }

  /** A table with two rows under one index key cannot be migrated: one of the entries is overwritten. */
  lemma {:induction false} MigratedMeansNoClash(def: TableDef, t: Table)
    requires Pointing(def) && Migrated(def, t)
    ensures NoClash(def, t.rows)
  {
    forall j, k | j in t.rows && k in t.rows && j != k
      ensures PlacedEntries(def, t.rows, j).Keys !! PlacedEntries(def, t.rows, k).Keys
    {
      forall ik | ik in PlacedEntries(def, t.rows, j) ensures ik !in PlacedEntries(def, t.rows, k) {
        assert Holds(t.index, def.entries(t.rows[j], j)) && Holds(t.index, def.entries(t.rows[k], k));
      }
    }
  }

  // ------------------------------------------------------- one batch of rows, planned

  /** What one flush writes: rows put at new keys, old keys deleted, index entries put. */
  datatype Plan = Plan(puts: map<bytes, Row>, dels: set<bytes>, entries: map<bytes, bytes>)

  /** Deletes are applied before puts. */
  ghost function Flushed(rows: map<bytes, Row>, p: Plan): map<bytes, Row> {
    (rows - p.dels) + p.puts
  }

  /**
   * What moving rows keeps, under a quantifier: the verifier does not unfold it by itself where it is carried along.
   */
  ghost predicate Kept(def: TableDef, rows: map<bytes, Row>, now: map<bytes, Row>) {
    forall n: nat :: FoldedKept(n, def, rows, now)
  }

  ghost predicate FoldedKept(n: nat, def: TableDef, rows: map<bytes, Row>, now: map<bytes, Row>) {
    (Free(def, rows) ==> Free(def, now)) && (NoClash(def, rows) <==> NoClash(def, now))
  }

  lemma {:induction false} OpenKept(def: TableDef, rows: map<bytes, Row>, now: map<bytes, Row>)
    requires Kept(def, rows, now)
    ensures (Free(def, rows) ==> Free(def, now)) && (NoClash(def, rows) <==> NoClash(def, now))
  {
    assert FoldedKept(0, def, rows, now);
  }

  lemma {:induction false} KeptSame(def: TableDef, rows: map<bytes, Row>)
    ensures Kept(def, rows, rows)
  {
  }

  lemma {:induction false} KeptTwice(def: TableDef, a: map<bytes, Row>, b: map<bytes, Row>, c: map<bytes, Row>)
    requires Kept(def, a, b) && Kept(def, b, c)
    ensures Kept(def, a, c)
  {
    OpenKept(def, a, b);
    OpenKept(def, b, c);
  }

  lemma {:induction false} KeptMove(def: TableDef, rows: map<bytes, Row>, now: map<bytes, Row>, k: bytes)
    requires Kept(def, rows, now) && k in now && !Placed(def, k, now[k]) && Place(def, k, now[k]) !in now
    ensures Kept(def, rows, Move(now, k, Place(def, k, now[k])))
  {
    OpenKept(def, rows, now);
    MoveKeepsNoClash(def, now, k);
    if Free(def, now) {
      MoveKeepsFree(def, now, k);
    }
  }

  /** A plan moves rows from keys that are taken to keys that are free, and loses none. */
  ghost predicate Safe(def: TableDef, rows: map<bytes, Row>, p: Plan) {
    && p.dels <= rows.Keys && p.puts.Keys !! rows.Keys
    && Bag(def, Flushed(rows, p)) == Bag(def, rows)
    && Unplaced(def, Flushed(rows, p)) <= Unplaced(def, rows)
    && Kept(def, rows, Flushed(rows, p))
    && (p.puts == map[] ==> p.dels == {})
    && (p.puts != map[] ==> |Unplaced(def, Flushed(rows, p))| < |Unplaced(def, rows)|)
  }

  ghost predicate Tracks(def: TableDef, rows: map<bytes, Row>, p: Plan, index: map<bytes, bytes>, seen: set<bytes>) {
    NoClash(def, Flushed(rows, p)) && Indexed(def, Flushed(rows, p), index + p.entries, seen)
  }

  lemma {:induction false} MergeAssociative(a: map<bytes, bytes>, b: map<bytes, bytes>, c: map<bytes, bytes>)
    ensures a + b + c == a + (b + c)
  {
  }

  lemma {:induction false} Untouched(rows: map<bytes, Row>, p: Plan, k: bytes)
    requires p.puts.Keys !! rows.Keys && k in rows && k !in p.dels
    ensures k in Flushed(rows, p) && Flushed(rows, p)[k] == rows[k]
  {
  }

  /** A row that stays where it is only contributes its entries. */
  lemma {:induction false} PlanStay(def: TableDef, rows: map<bytes, Row>, p: Plan, k: bytes, index: map<bytes, bytes>,
                                    seen: set<bytes>)
    requires Safe(def, rows, p) && k in rows && k !in p.dels && Placed(def, k, rows[k])
    ensures
      var p' := p.(entries := p.entries + def.entries(rows[k], k));
      && Safe(def, rows, p') && Flushed(rows, p') == Flushed(rows, p)
      && (Tracks(def, rows, p, index, seen) ==> Tracks(def, rows, p', index, seen + {k}))
  {
    Untouched(rows, p, k);
    var p' := p.(entries := p.entries + def.entries(rows[k], k));
    assert Flushed(rows, p') == Flushed(rows, p);
    if Tracks(def, rows, p, index, seen) {
      VisitKeepsIndexed(def, Flushed(rows, p), index + p.entries, seen, k);
      MergeAssociative(index, p.entries, def.entries(rows[k], k));
    }
  }

  lemma {:induction false} FlushedMove(rows: map<bytes, Row>, p: Plan, k: bytes, to: bytes, entries: map<bytes, bytes>)
    requires p.puts.Keys !! rows.Keys && k in rows && k !in p.dels && to !in rows && to !in p.puts
    ensures k in Flushed(rows, p) && Flushed(rows, p)[k] == rows[k] && to !in Flushed(rows, p)
    ensures Flushed(rows, Plan(p.puts[to := rows[k]], p.dels + {k}, entries)) == Move(Flushed(rows, p), k, to)
  {
  }

  /** A row that moves to a free, unclaimed key. */
  lemma {:induction false} PlanMove(def: TableDef, rows: map<bytes, Row>, p: Plan, k: bytes, to: bytes)
    requires Safe(def, rows, p) && k in rows && k !in p.dels && !Placed(def, k, rows[k])
    requires to == Place(def, k, rows[k]) && to !in rows && to !in p.puts
    ensures Safe(def, rows, Plan(p.puts[to := rows[k]], p.dels + {k}, p.entries + def.entries(rows[k], to)))
  {
    var now := Flushed(rows, p);
    FlushedMove(rows, p, k, to, p.entries + def.entries(rows[k], to));
    MoveKeepsBag(def, now, k);
    MoveUnplaced(def, now, k);
    KeptMove(def, rows, now, k);
    assert k in Unplaced(def, now);
    MoveShrinks(def, rows, p, k);
  }

  lemma {:induction false} TrackMove(def: TableDef, rows: map<bytes, Row>, p: Plan, k: bytes, to: bytes,
                                     index: map<bytes, bytes>, seen: set<bytes>)
    requires p.puts.Keys !! rows.Keys && k in rows && k !in p.dels && !Placed(def, k, rows[k])
    requires to == Place(def, k, rows[k]) && to !in rows && to !in p.puts
    requires Tracks(def, rows, p, index, seen)
    ensures Tracks(def, rows, Plan(p.puts[to := rows[k]], p.dels + {k}, p.entries + def.entries(rows[k], to)), index,
                   seen + {to})
  {
    var now := Flushed(rows, p);
    FlushedMove(rows, p, k, to, p.entries + def.entries(rows[k], to));
    MoveKeepsNoClash(def, now, k);
    MoveKeepsIndexed(def, now, index + p.entries, seen, k);
    VisitKeepsIndexed(def, Move(now, k, to), index + p.entries, seen, to);
    MergeAssociative(index, p.entries, def.entries(rows[k], to));
  }

  lemma {:induction false} MoveShrinks(def: TableDef, rows: map<bytes, Row>, p: Plan, k: bytes)
    requires Safe(def, rows, p) && k in Unplaced(def, Flushed(rows, p))
    ensures |Unplaced(def, Flushed(rows, p)) - {k}| < |Unplaced(def, rows)|
  {
    Subset(Unplaced(def, Flushed(rows, p)), Unplaced(def, rows));
  }

  lemma {:induction false} HomeMove(def: TableDef, rows: map<bytes, Row>, k: bytes, seen: set<bytes>)
    requires AtHome(def, rows, seen) && k in rows && !Placed(def, k, rows[k]) && Place(def, k, rows[k]) !in rows
    ensures AtHome(def, Move(rows, k, Place(def, k, rows[k])), seen + {Place(def, k, rows[k])})
  {
  }

  /** The places the rows among `done` move to. */
  ghost function Targets(def: TableDef, rows: map<bytes, Row>, done: seq<bytes>): set<bytes> {
    set k | k in done && k in rows && !Placed(def, k, rows[k]) :: Place(def, k, rows[k])
  }

  /** The row cannot move: its key is not encodable, or its place is taken or wanted by an earlier row of the batch. */
  ghost predicate Blocked(def: TableDef, rows: map<bytes, Row>, chunk: seq<bytes>, i: nat)
    requires i < |chunk| && chunk[i] in rows
  {
    var k, row := chunk[i], rows[chunk[i]];
    def.refold(row) && (
      || def.home(row).None?
      || (!Placed(def, k, row) && (Place(def, k, row) in rows || Place(def, k, row) in Targets(def, rows, chunk[..i]))))
  }

  /** The rows among `done` that move. */
  ghost function Movers(def: TableDef, rows: map<bytes, Row>, done: seq<bytes>): set<bytes> {
    set k | k in done && k in rows && !Placed(def, k, rows[k])
  }

  /** A plan moves the movers of the batch to their places, and nothing else. */
  ghost predicate MovesAll(def: TableDef, rows: map<bytes, Row>, done: seq<bytes>, p: Plan) {
    && p.dels == Movers(def, rows, done) && p.puts.Keys == Targets(def, rows, done)
    && forall k | k in Movers(def, rows, done) ::
         Place(def, k, rows[k]) in p.puts && p.puts[Place(def, k, rows[k])] == rows[k]
  }

  lemma {:induction false} TargetsNext(def: TableDef, rows: map<bytes, Row>, done: seq<bytes>, k: bytes)
    requires k in rows
    ensures Targets(def, rows, done + [k]) ==
            Targets(def, rows, done) + (if Placed(def, k, rows[k]) then {} else {Place(def, k, rows[k])})
    ensures Movers(def, rows, done + [k]) == Movers(def, rows, done) + (if Placed(def, k, rows[k]) then {} else {k})
  {
    forall b | b in Targets(def, rows, done + [k]) && b !in Targets(def, rows, done)
      ensures !Placed(def, k, rows[k]) && b == Place(def, k, rows[k])
    {
      var j :| j in done + [k] && j in rows && !Placed(def, j, rows[j]) && Place(def, j, rows[j]) == b;
      assert j == k;
    }
  }

  lemma {:induction false} StayMovesAll(def: TableDef, rows: map<bytes, Row>, done: seq<bytes>, p: Plan, k: bytes,
                                        p': Plan)
    requires MovesAll(def, rows, done, p) && k in rows && Placed(def, k, rows[k]) && p'.puts == p.puts
             && p'.dels == p.dels
    ensures MovesAll(def, rows, done + [k], p')
  {
    TargetsNext(def, rows, done, k);
  }

  lemma {:induction false} MoveMovesAll(def: TableDef, rows: map<bytes, Row>, done: seq<bytes>, p: Plan, k: bytes,
                                        p': Plan)
    requires MovesAll(def, rows, done, p) && k in rows && !Placed(def, k, rows[k]) && Place(def, k, rows[k]) !in p.puts
    requires p'.puts == p.puts[Place(def, k, rows[k]) := rows[k]] && p'.dels == p.dels + {k}
    ensures MovesAll(def, rows, done + [k], p')
  {
    TargetsNext(def, rows, done, k);
  }

  /** Where the per-row loop stands after the first `i` rows of the batch. */
  ghost predicate Planned(def: TableDef, rows: map<bytes, Row>, done: seq<bytes>, p: Plan,
                          index: map<bytes, bytes>, seen: set<bytes>, seen': set<bytes>)
  {
    && Safe(def, rows, p)
    && (forall k | k in p.dels :: k in done)
    && (NoClash(def, rows) && Indexed(def, rows, index, seen) ==> Tracks(def, rows, p, index, seen'))
    && (AtHome(def, rows, seen) ==> AtHome(def, Flushed(rows, p), seen'))
    && seen <= seen' && forall k | k in Flushed(rows, p) && (k in done || k in p.puts) :: k in seen'
  }

  /** The same, with what is moved, under a quantifier: the verifier does not unfold it by itself in the loop below. */
  ghost predicate PlannedSoFar(def: TableDef, rows: map<bytes, Row>, done: seq<bytes>, p: Plan,
                               index: map<bytes, bytes>, seen: set<bytes>, seen': set<bytes>)
  {
    forall n: nat :: FoldedPlan(n, def, rows, done, p, index, seen, seen')
  }

  ghost predicate FoldedPlan(n: nat, def: TableDef, rows: map<bytes, Row>, done: seq<bytes>, p: Plan,
                             index: map<bytes, bytes>, seen: set<bytes>, seen': set<bytes>)
  {
    Planned(def, rows, done, p, index, seen, seen') && MovesAll(def, rows, done, p)
  }

  lemma {:induction false} Unfold(def: TableDef, rows: map<bytes, Row>, done: seq<bytes>, p: Plan,
                                  index: map<bytes, bytes>, seen: set<bytes>, seen': set<bytes>)
    requires PlannedSoFar(def, rows, done, p, index, seen, seen')
    ensures Planned(def, rows, done, p, index, seen, seen') && MovesAll(def, rows, done, p)
  {
    assert FoldedPlan(0, def, rows, done, p, index, seen, seen');
  }

  lemma {:induction false} FoldPlan(def: TableDef, rows: map<bytes, Row>, done: seq<bytes>, p: Plan,
                                    index: map<bytes, bytes>, seen: set<bytes>, seen': set<bytes>)
    requires Planned(def, rows, done, p, index, seen, seen') && MovesAll(def, rows, done, p)
    ensures PlannedSoFar(def, rows, done, p, index, seen, seen')
  {
  }

  lemma {:induction false} PlannedStart(def: TableDef, rows: map<bytes, Row>, index: map<bytes, bytes>,
                                        seen: set<bytes>)
    ensures PlannedSoFar(def, rows, [], Plan(map[], {}, map[]), index, seen, seen)
  {
    var p := Plan(map[], {}, map[]);
    assert Flushed(rows, p) == rows && index + p.entries == index;
    KeptSame(def, rows);
  }

  lemma {:induction false} PlannedStay(def: TableDef, rows: map<bytes, Row>, done: seq<bytes>, p: Plan, k: bytes,
                                       index: map<bytes, bytes>, seen: set<bytes>, seen': set<bytes>)
    requires PlannedSoFar(def, rows, done, p, index, seen, seen') && k in rows && k !in done && Placed(def, k, rows[k])
    ensures PlannedSoFar(def, rows, done + [k], p.(entries := p.entries + def.entries(rows[k], k)), index, seen,
                         seen' + {k})
  {
    Unfold(def, rows, done, p, index, seen, seen');
    PlanStay(def, rows, p, k, index, seen');
    Untouched(rows, p, k);
    StayMovesAll(def, rows, done, p, k, p.(entries := p.entries + def.entries(rows[k], k)));
  }

  lemma {:induction false} PlannedMove(def: TableDef, rows: map<bytes, Row>, done: seq<bytes>, p: Plan, k: bytes,
                                       to: bytes,
                                       index: map<bytes, bytes>, seen: set<bytes>, seen': set<bytes>)
    requires PlannedSoFar(def, rows, done, p, index, seen, seen') && k in rows && k !in done && !Placed(def, k, rows[k])
    requires to == Place(def, k, rows[k]) && to !in rows && to !in p.puts
    ensures
      var p' := Plan(p.puts[to := rows[k]], p.dels + {k}, p.entries + def.entries(rows[k], to));
      PlannedSoFar(def, rows, done + [k], p', index, seen, seen' + {to})
  {
    Unfold(def, rows, done, p, index, seen, seen');
    var p' := Plan(p.puts[to := rows[k]], p.dels + {k}, p.entries + def.entries(rows[k], to));
    PlanMove(def, rows, p, k, to);
    if NoClash(def, rows) && Indexed(def, rows, index, seen) {
      TrackMove(def, rows, p, k, to, index, seen');
    }
    SeenMove(def, rows, done, p, k, to, p', seen, seen');
    MoveMovesAll(def, rows, done, p, k, p');
  }

  lemma {:induction false} SeenMove(def: TableDef, rows: map<bytes, Row>, done: seq<bytes>, p: Plan, k: bytes,
                                    to: bytes, p': Plan,
                                    seen: set<bytes>, seen': set<bytes>)
    requires p.puts.Keys !! rows.Keys && k in rows && k !in p.dels && !Placed(def, k, rows[k])
    requires to == Place(def, k, rows[k]) && to !in rows && to !in p.puts
    requires p'.puts == p.puts[to := rows[k]] && p'.dels == p.dels + {k}
    requires forall j | j in Flushed(rows, p) && (j in done || j in p.puts) :: j in seen'
    ensures AtHome(def, Flushed(rows, p), seen') ==> AtHome(def, Flushed(rows, p'), seen' + {to})
    ensures forall j | j in Flushed(rows, p') && (j in done + [k] || j in p'.puts) :: j in seen' + {to}
  {
    FlushedMove(rows, p, k, to, p'.entries);
    assert Flushed(rows, p') == Move(Flushed(rows, p), k, to);
    if AtHome(def, Flushed(rows, p), seen') {
      HomeMove(def, Flushed(rows, p), k, seen');
    }
  }

  /** None of the first `n` rows of the batch is blocked. */
  ghost predicate Unblocked(def: TableDef, rows: map<bytes, Row>, chunk: seq<bytes>, n: nat)
    requires n <= |chunk| && forall k | k in chunk :: k in rows
  {
    n > 0 ==> Unblocked(def, rows, chunk, n - 1) && !Blocked(def, rows, chunk, n - 1)
  }

  lemma {:induction false} UnblockedAll(def: TableDef, rows: map<bytes, Row>, chunk: seq<bytes>, n: nat)
    requires n <= |chunk| && (forall k | k in chunk :: k in rows) && Unblocked(def, rows, chunk, n)
    ensures forall i | 0 <= i < n :: !Blocked(def, rows, chunk, i)
  {
    if n > 0 {
      UnblockedAll(def, rows, chunk, n - 1);
    }
  }

  /** The per-row loop of one scan batch; `Clash` exactly when a row is blocked. */
  method PlanBatch(def: TableDef, rows: map<bytes, Row>, chunk: seq<bytes>, ghost index: map<bytes, bytes>,
                   ghost seen: set<bytes>)
    returns (o: Outcome, p: Plan, ghost seen': set<bytes>)
    requires forall k | k in chunk :: k in rows
    requires forall i, j | 0 <= i < j < |chunk| :: chunk[i] != chunk[j]
    ensures o == if exists i :: 0 <= i < |chunk| && Blocked(def, rows, chunk, i) then Clash else Done
    ensures o.Done? ==> Planned(def, rows, chunk, p, index, seen, seen') && MovesAll(def, rows, chunk, p)
  {
    p := Plan(map[], {}, map[]);
    seen' := seen;
    var claimed: map<bytes, bytes> := map[];
    PlannedStart(def, rows, index, seen);
    for i := 0 to |chunk|
      invariant PlannedSoFar(def, rows, chunk[..i], p, index, seen, seen')
      invariant claimed.Keys == p.puts.Keys == Targets(def, rows, chunk[..i])
      invariant Unblocked(def, rows, chunk, i)
    {
      var k := chunk[i];
      var row := rows[k];
      assert chunk[..i + 1] == chunk[..i] + [k] && k !in chunk[..i];
      TargetsNext(def, rows, chunk[..i], k);
      if def.refold(row) {
        var home := def.home(row);
        if home.None? {
          assert Blocked(def, rows, chunk, i);
          return Clash, p, seen';
        }
        if home.value != k {
          if home.value in claimed || home.value in rows {
            assert Blocked(def, rows, chunk, i);
            return Clash, p, seen';
          }
          PlannedMove(def, rows, chunk[..i], p, k, home.value, index, seen, seen');
          claimed := claimed[home.value := k];
          p := Plan(p.puts[home.value := row], p.dels + {k}, p.entries + def.entries(row, home.value));
          seen' := seen' + {home.value};
          continue;
        }
      }
      PlannedStay(def, rows, chunk[..i], p, k, index, seen, seen');
      p := p.(entries := p.entries + def.entries(row, k));
      seen' := seen' + {k};
    }
    assert chunk[..|chunk|] == chunk;
    Unfold(def, rows, chunk, p, index, seen, seen');
    UnblockedAll(def, rows, chunk, |chunk|);
    o := Done;
  }

  // ------------------------------------------------------------------- the database

  class Db {
    var version: int
    var tables: seq<Table>
    /** How many commits this process still makes before it is cut off. */
    var left: nat

    /** Only table `i` may differ from `before`. */
    ghost predicate OnlyTable(i: nat, before: seq<Table>)
      reads this
    {
      i < |tables| == |before| && forall j | 0 <= j < |tables| && j != i :: tables[j] == before[j]
    }

    /** One atomic commit to table `i`, or the crash that comes before it. */
    method CommitWrite(i: nat, p: Plan, indexDels: set<bytes>) returns (ok: bool)
      requires i < |tables|
      modifies this
      ensures version == old(version) && ok == (old(left) > 0) && OnlyTable(i, old(tables))
              && left == (if ok then old(left) - 1 else 0)
      ensures ok ==> tables[i].rows == Flushed(old(tables[i].rows), p)
      ensures ok ==> tables[i].index == (old(tables[i].index) - indexDels) + p.entries
      ensures !ok ==> tables[i] == old(tables[i])
    {
      if left == 0 { return false; }
      left := left - 1;
      var t := tables[i];
      tables := tables[i := Table((t.rows - p.dels) + p.puts, (t.index - indexDels) + p.entries)];
      return true;
    }

    /** The old index entries go first, batch by batch. */
    method ClearIndex(i: nat) returns (o: Outcome)
      requires i < |tables|
      modifies this
      ensures version == old(version) && OnlyTable(i, old(tables))
      ensures tables[i].rows == old(tables[i].rows) && !o.Clash? && (o.Crashed? ==> left == 0)
      ensures o.Done? ==> tables[i].index == map[]
    {
      var cursor: Option<bytes> := None;
      while true
        invariant version == old(version) && OnlyTable(i, old(tables))
        invariant tables[i].rows == old(tables[i].rows)
        invariant forall k | k in tables[i].index :: After(cursor, k)
        decreases |tables[i].index|
      {
        ghost var before := tables[i];
        var batch := ScanBatch(BATCH, tables[i].index.Keys, cursor);
        if batch == [] {
          return Done;
        }
        var dels := set k | k in batch;
        BatchLeaves(before.index, cursor, batch);
        cursor := Some(batch[|batch| - 1]);
        var ok := CommitWrite(i, Plan(map[], {}, map[]), dels);
        if !ok { return Crashed; }
        NothingElse(before, dels);
        if |batch| < BATCH {
          return Done;
        }
      }
    }

    /** Plans one scan batch and commits the plan, if there is anything in it. */
    method FlushBatch(i: nat, def: TableDef, chunk: seq<bytes>, ghost seen: set<bytes>)
      returns (o: Outcome, ghost p: Plan, ghost seen': set<bytes>)
      requires i < |tables| && (forall k | k in chunk :: k in tables[i].rows)
      requires forall i, j | 0 <= i < j < |chunk| :: chunk[i] != chunk[j]
      modifies this
      ensures version == old(version) && OnlyTable(i, old(tables)) && (o.Crashed? ==> left == 0)
      ensures !o.Done? ==> tables[i] == old(tables[i])
      ensures o.Clash? ==> exists n :: 0 <= n < |chunk| && Blocked(def, old(tables[i].rows), chunk, n)
      ensures o.Done? ==>
                && tables[i] == Table(Flushed(old(tables[i].rows), p), old(tables[i].index) + p.entries)
                && PlannedSoFar(def, old(tables[i].rows), chunk, p, old(tables[i].index), seen, seen')
                && NoneBlocked(def, old(tables[i].rows), chunk)
    {
      var t, plan := tables[i], Plan(map[], {}, map[]);
      o, plan, seen' := PlanBatch(def, t.rows, chunk, t.index, seen);
      p := plan;
      if !o.Done? { return; }
      if plan.puts != map[] || plan.dels != {} || plan.entries != map[] {
        var ok := CommitWrite(i, plan, {});
        if !ok { return Crashed, p, seen'; }
      }
      FlushedTable(t, p);
      FoldPlan(def, t.rows, chunk, p, t.index, seen, seen');
    }

    /**
     * Rebuilds one table: index cleared, then every row re-keyed where needed and re-indexed, batch by batch.
     * `cuts` are the ends of the full batches. Unless the process is cut off, it finishes exactly if the table is
     * movable, and reports a clash otherwise.
     */
    method MigrateTable(i: nat, def: TableDef) returns (o: Outcome, ghost cuts: seq<bytes>)
      requires i < |tables|
      modifies this
      ensures version == old(version) && OnlyTable(i, old(tables))
      ensures Bag(def, tables[i].rows) == Bag(def, old(tables[i].rows))
              && Kept(def, old(tables[i].rows), tables[i].rows)
      ensures o.Done? ==> AtHome(def, tables[i].rows, tables[i].rows.Keys)
      ensures o.Done? && NoClash(def, old(tables[i].rows)) ==> Migrated(def, tables[i])
      ensures (o.Crashed? ==> left == 0) && CutsOf(def, old(tables[i].rows), cuts)
      ensures !o.Done? ==> Scanned(def, old(tables[i].rows), LastOf(cuts), tables[i].rows)
      ensures o.Done? ==> Clear(def, old(tables[i].rows), cuts)
      ensures (o.Done? ==> Movable(def, old(tables[i].rows))) && (o.Clash? ==> !Movable(def, old(tables[i].rows)))
    {
      cuts := [];
      o := ClearIndex(i);
      if !o.Done? {
        KeptSame(def, tables[i].rows);
        StartScanned(def, tables[i].rows);
        return;
      }
      ghost var rows0 := tables[i].rows;
      ghost var seen: set<bytes> := {};
      var cursor: Option<bytes> := None;
      MidwayStart(def, tables[i]);
      while true
        invariant version == old(version) && OnlyTable(i, old(tables)) && cursor == LastOf(cuts)
        invariant Midway(def, rows0, tables[i], cuts, seen)
        decreases |Unplaced(def, tables[i].rows)|, |Ahead(tables[i].rows.Keys, cursor)|
      {
        ghost var t := tables[i];
        MidwayKeeps(def, rows0, t, cuts, seen);
        var chunk := ScanBatch(BATCH, tables[i].rows.Keys, cursor);
        if chunk == [] {
          MidwayEnd(def, rows0, t, cuts, seen);
          return Done, cuts;
        }
        BatchDistinct(BATCH, t.rows.Keys, cursor, chunk);
        ghost var p, seen';
        o, p, seen' := FlushBatch(i, def, chunk, seen);
        if !o.Done? {
          MidwayScanned(def, rows0, t, cuts, seen);
          if o.Clash? { MidwayBlocked(def, rows0, t, cuts, seen, chunk); }
          return;
        }
        if |chunk| < BATCH {
          MidwayShort(def, rows0, t, cuts, chunk, p, seen, seen');
          return Done, cuts;
        }
        MidwayNext(def, rows0, t, cuts, chunk, p, seen, seen');
        cursor := Some(chunk[|chunk| - 1]);
        cuts, seen := cuts + [chunk[|chunk| - 1]], seen';
      }
    }

    /** One start of the database: nothing to do if the marker is current; else every table, then the marker. */
    method Migrate(defs: seq<TableDef>) returns (o: Outcome)
      requires |defs| == |tables|
      modifies this
      ensures |tables| == |old(tables)| && Conserved(defs, old(tables), tables)
      ensures version == old(version) || version == VERSION
      ensures (o.Done? ==> version >= VERSION) && (!o.Done? ==> version == old(version))
      ensures (o.Crashed? ==> left == 0) && (o.Clash? ==> !AllMovable(defs, old(tables)))
      ensures o.Done? && old(version) < VERSION ==> AllMovable(defs, old(tables))
      ensures AllLeft(defs, old(tables), tables)
      ensures old(version) >= VERSION ==> o.Done? && tables == old(tables) && version == old(version)
      ensures version > old(version) && NoClashes(defs, old(tables)) ==> AllMigrated(defs, tables)
    {
      HalfwayStart(defs, tables);
      HalfwayKeeps(defs, tables, tables, 0);
      if version >= VERSION { return Done; }
      for i := 0 to |defs|
        invariant |tables| == |defs| && version == old(version) && Halfway(defs, old(tables), tables, i)
      {
        ghost var before := tables;
        if defs[i].active {
          ghost var cuts;
          o, cuts := MigrateTable(i, defs[i]);
          if !o.Done? {
            LeftCut(defs[i], before[i].rows, cuts, tables[i].rows);
            HalfwayStop(defs, old(tables), before, tables, i);
            return;
          }
          LeftDone(defs[i], before[i].rows, tables[i].rows);
          assert FoldedSettled(0, defs[i], before[i], tables[i]);
        }
        HalfwayNext(defs, old(tables), before, tables, i);
      }
      HalfwayKeeps(defs, old(tables), tables, |defs|);
      HalfwayEnd(defs, old(tables), tables);
      if left == 0 { return Crashed; }
      left := left - 1;
      version := VERSION;
      return Done;
    }

    /**
     * Any chain of starts, each cut off after any number of commits. However it goes, every table keeps its rows; if
     * the last start reports success, every table is migrated. How the last start ends that had work to do goes by
     * the tables it found, which earlier starts left.
     */
    method Restarts(defs: seq<TableDef>, cuts: seq<nat>) returns (o: Outcome, ghost found: seq<Table>)
      requires |defs| == |tables| && version < VERSION
      modifies this
      ensures |tables| == |old(tables)| && Conserved(defs, old(tables), tables)
      ensures o.Done? && NoClashes(defs, old(tables)) ==> AllMigrated(defs, tables)
      ensures AllReachable(defs, old(tables), found)
      ensures (o.Done? ==> AllMovable(defs, found)) && (o.Clash? ==> !AllMovable(defs, found))
      ensures AllFree(defs, old(tables)) ==> !o.Clash?
      ensures cuts != [] && left > 0 ==> !o.Crashed?
    {
      o, found := Crashed, tables;
      ChainStart(defs, tables, version);
      for n := 0 to |cuts|
        invariant |tables| == |defs| && Chain(defs, old(tables), tables, found, version, o)
        invariant n > 0 && o.Crashed? ==> left == 0
      {
        left := cuts[n];
        ghost var before, v, o0 := tables, version, o;
        o := Migrate(defs);
        ChainNext(defs, old(tables), before, found, v, o0, tables, version, o);
        if v < VERSION { found := before; }
      }
      ChainEnd(defs, old(tables), tables, found, version, o);
    }
  }

  // ------------------------------------------------------------- the outer loops' facts

  /** Everything at or before the cursor has been seen. */
  ghost predicate Reached(rows: map<bytes, Row>, cursor: Option<bytes>, seen: set<bytes>) {
    forall k | k in rows && !After(cursor, k) :: k in seen
  }

  lemma {:induction false} AllReached(rows: map<bytes, Row>, cursor: Option<bytes>, seen: set<bytes>)
    requires Reached(rows, cursor, seen) && IsBatch(BATCH, rows.Keys, cursor, [])
    ensures rows.Keys <= seen
  {
  }

  /** After a flush, what the cursor passed has been seen. */
  lemma {:induction false} FlushReaches(def: TableDef, t: Table, cursor: Option<bytes>, chunk: seq<bytes>, p: Plan,
                                        seen: set<bytes>, seen': set<bytes>)
    requires IsBatch(BATCH, t.rows.Keys, cursor, chunk) && chunk != [] && Reached(t.rows, cursor, seen)
    requires Planned(def, t.rows, chunk, p, t.index, seen, seen')
    ensures Reached(Flushed(t.rows, p), Some(chunk[|chunk| - 1]), seen')
    ensures |chunk| < BATCH ==> Flushed(t.rows, p).Keys <= seen'
  {
    var end := chunk[|chunk| - 1];
    forall k | k in Flushed(t.rows, p) && (|chunk| < BATCH || !After(Some(end), k)) ensures k in seen' {
      if k !in p.puts && k !in chunk {
        LessTotal(k, end);
        if AtMost(k, end) {
          BatchCovers(BATCH, t.rows.Keys, cursor, chunk, k);
        }
      }
    }
  }

  // --------------------------------------------------- batch cuts, and when rows clash

  /** Where a row is once the scan has passed `cursor`: at its place if it was passed, else where it was. */
  ghost function At(def: TableDef, rows0: map<bytes, Row>, cursor: Option<bytes>, k: bytes): bytes
    requires k in rows0
  {
    if After(cursor, k) then k else Place(def, k, rows0[k])
  }

  ghost function KeysAt(def: TableDef, rows0: map<bytes, Row>, cursor: Option<bytes>): set<bytes> {
    set k | k in rows0 :: At(def, rows0, cursor, k)
  }

  /** The table as the scan has left it so far: every row is where it should be, and there are no others. */
  ghost predicate Scanned(def: TableDef, rows0: map<bytes, Row>, cursor: Option<bytes>, rows: map<bytes, Row>) {
    && (forall k | k in rows0 :: RowAt(def, rows0, cursor, rows, k))
    && (forall b | b in rows :: b in KeysAt(def, rows0, cursor))
  }

  ghost predicate RowAt(def: TableDef, rows0: map<bytes, Row>, cursor: Option<bytes>, rows: map<bytes, Row>, k: bytes)
    requires k in rows0
  {
    At(def, rows0, cursor, k) in rows && rows[At(def, rows0, cursor, k)] == rows0[k]
  }

  lemma {:induction false} ScannedKeys(def: TableDef, rows0: map<bytes, Row>, cursor: Option<bytes>,
                                       rows: map<bytes, Row>)
    requires Scanned(def, rows0, cursor, rows)
    ensures rows.Keys == KeysAt(def, rows0, cursor)
  {
    forall b | b in KeysAt(def, rows0, cursor) ensures b in rows {
      var k :| k in rows0 && At(def, rows0, cursor, k) == b;
      assert RowAt(def, rows0, cursor, rows, k);
    }
  }

  /** What a start leaves that is cut off after a batch is settled by the table and where the batch ends. */
  lemma {:induction false} ScannedUnique(def: TableDef, rows0: map<bytes, Row>, cursor: Option<bytes>,
                                         a: map<bytes, Row>, b: map<bytes, Row>)
    requires Scanned(def, rows0, cursor, a) && Scanned(def, rows0, cursor, b)
    ensures a == b
  {
    ScannedKeys(def, rows0, cursor, a);
    ScannedKeys(def, rows0, cursor, b);
    forall x | x in a ensures a[x] == b[x] {
      assert x in KeysAt(def, rows0, cursor);
      var k :| k in rows0 && At(def, rows0, cursor, k) == x;
      assert RowAt(def, rows0, cursor, a, k) && RowAt(def, rows0, cursor, b, k);
    }
  }

  /** `cut` ends a full batch that starts after `cursor`. */
  ghost predicate CutAfter(def: TableDef, rows0: map<bytes, Row>, cursor: Option<bytes>, cut: bytes) {
    exists chunk :: IsBatch(BATCH, KeysAt(def, rows0, cursor), cursor, chunk) && |chunk| == BATCH
                    && chunk[BATCH - 1] == cut
  }

  /** Each cut is the last key of the full batch after the cut before, in the table as moved so far. */
  ghost predicate CutsOf(def: TableDef, rows0: map<bytes, Row>, cuts: seq<bytes>) {
    forall i | 0 <= i < |cuts| :: CutAfter(def, rows0, LastOf(cuts[..i]), cuts[i])
  }

  /** A cut separates the two keys. */
  ghost predicate Between(cuts: seq<bytes>, j: bytes, k: bytes) {
    exists c | c in cuts :: AtMost(j, c) && Less(c, k)
  }

  /**
   * Every row can be put in place, given where the batches end: all keys are encodable, no two rows belong at one
   * place, and a row whose place is another moving row's old key is in a later batch than that row.
   */
  ghost predicate Clear(def: TableDef, rows0: map<bytes, Row>, cuts: seq<bytes>) {
    && (forall k | k in rows0 && def.refold(rows0[k]) :: def.home(rows0[k]).Some?)
    && (forall j, k | j in rows0 && k in rows0 && j != k :: Place(def, j, rows0[j]) != Place(def, k, rows0[k]))
    && (forall k | k in rows0 && !Placed(def, k, rows0[k]) :: Vacated(def, rows0, cuts, k))
  }

  /** The table's own cuts let every row be put in place: this can be told before the migration starts. */
  ghost predicate Movable(def: TableDef, rows0: map<bytes, Row>) {
    exists cuts :: CutsOf(def, rows0, cuts) && Clear(def, rows0, cuts)
  }

  ghost predicate Vacated(def: TableDef, rows0: map<bytes, Row>, cuts: seq<bytes>, k: bytes)
    requires k in rows0
  {
    var j := Place(def, k, rows0[k]);
    j in rows0 && !Placed(def, j, rows0[j]) ==> Between(cuts, j, k)
  }

  lemma {:induction false} CutUnique(def: TableDef, rows0: map<bytes, Row>, cursor: Option<bytes>, c: bytes, d: bytes)
    requires CutAfter(def, rows0, cursor, c) && CutAfter(def, rows0, cursor, d)
    ensures c == d
  {
    var keys := KeysAt(def, rows0, cursor);
    var x :| IsBatch(BATCH, keys, cursor, x) && |x| == BATCH && x[BATCH - 1] == c;
    var y :| IsBatch(BATCH, keys, cursor, y) && |y| == BATCH && y[BATCH - 1] == d;
    BatchUnique(BATCH, keys, cursor, x, y, BATCH);
    assert x[..BATCH][BATCH - 1] == c && y[..BATCH][BATCH - 1] == d;
  }

  /** Where batches end is settled by the table: two runs of cuts agree as far as both go. */
  lemma {:induction false} CutsAgree(def: TableDef, rows0: map<bytes, Row>, a: seq<bytes>, b: seq<bytes>, n: nat)
    requires CutsOf(def, rows0, a) && CutsOf(def, rows0, b) && n <= |a| && n <= |b|
    ensures a[..n] == b[..n]
  {
    if n > 0 {
      CutsAgree(def, rows0, a, b, n - 1);
      assert CutAfter(def, rows0, LastOf(a[..n - 1]), a[n - 1]) && CutAfter(def, rows0, LastOf(b[..n - 1]), b[n - 1]);
      CutUnique(def, rows0, LastOf(a[..n - 1]), a[n - 1], b[n - 1]);
      assert a[..n] == a[..n - 1] + [a[n - 1]] && b[..n] == b[..n - 1] + [b[n - 1]];
    }
  }

  /** Rows that can all move freely are clear, wherever batches end. */
  lemma {:induction false} FreeIsClear(def: TableDef, rows: map<bytes, Row>, cuts: seq<bytes>)
    requires Free(def, rows)
    ensures Clear(def, rows, cuts)
  {
  }

  lemma {:induction false} FreeIsMovable(def: TableDef, rows: map<bytes, Row>)
    requires Free(def, rows)
    ensures Movable(def, rows)
  {
    FreeIsClear(def, rows, []);
    assert CutsOf(def, rows, []);
  }

  /** In a table of one batch no cut separates anything, so chains of moving rows always clash. */
  lemma {:induction false} OneBatchClear(def: TableDef, rows0: map<bytes, Row>, cuts: seq<bytes>)
    requires |rows0| <= BATCH && CutsOf(def, rows0, cuts)
    ensures Clear(def, rows0, cuts) <==> Clear(def, rows0, [])
  {
    forall j, k | k in rows0 ensures !Between(cuts, j, k) {
      if c: bytes :| c in cuts && AtMost(j, c) && Less(c, k) {
        CutPassesAll(def, rows0, cuts, c, k);
      }
    }
  }

  lemma {:induction false} CutPassesAll(def: TableDef, rows0: map<bytes, Row>, cuts: seq<bytes>, c: bytes, k: bytes)
    requires |rows0| <= BATCH && CutsOf(def, rows0, cuts) && c in cuts && k in rows0
    ensures !Less(c, k)
  {
    var i :| 0 <= i < |cuts| && cuts[i] == c;
    NoneAfter(def, rows0, cuts, 0, i);
    FirstCut(def, rows0, cuts, k);
    if Less(c, k) && cuts[0] != c { LessTransitive(cuts[0], c, k); }
  }

  lemma {:induction false} FirstCut(def: TableDef, rows0: map<bytes, Row>, cuts: seq<bytes>, k: bytes)
    requires |rows0| <= BATCH && CutsOf(def, rows0, cuts) && cuts != [] && k in rows0
    ensures !Less(cuts[0], k)
  {
    assert CutAfter(def, rows0, LastOf(cuts[..0]), cuts[0]);
    var first :| IsBatch(BATCH, KeysAt(def, rows0, None), None, first) && |first| == BATCH
                 && first[BATCH - 1] == cuts[0];
    StartKeys(def, rows0);
    BatchIsAll(rows0.Keys, first);
    if Less(cuts[0], k) { NotInBatch(rows0.Keys, None, first, k); }
  }

  lemma {:induction false} StartKeys(def: TableDef, rows0: map<bytes, Row>)
    ensures KeysAt(def, rows0, None) == rows0.Keys
  {
    forall k | k in rows0 ensures k in KeysAt(def, rows0, None) {
      assert At(def, rows0, None, k) == k;
    }
  }

  /** A batch as long as the table is the table. */
  lemma {:induction false} BatchIsAll(keys: set<bytes>, batch: seq<bytes>)
    requires IsBatch(BATCH, keys, None, batch) && |batch| == BATCH && |keys| <= BATCH
    ensures forall k | k in keys :: k in batch
  {
    BatchDistinct(BATCH, keys, None, batch);
    var got := set k | k in batch;
    SeqSize(batch);
    if k :| k in keys && k !in batch {
      Subset(got + {k}, keys);
    }
  }

  lemma {:induction false} SeqSize(xs: seq<bytes>)
    requires forall i, j | 0 <= i < j < |xs| :: xs[i] != xs[j]
    ensures |set k | k in xs| == |xs|
  {
    if xs != [] {
      var n := |xs| - 1;
      SeqSize(xs[..n]);
      assert (set k | k in xs) == (set k | k in xs[..n]) + {xs[n]};
      assert xs[n] !in xs[..n];
    }
  }

  lemma {:induction false} CutHigher(def: TableDef, rows0: map<bytes, Row>, c: bytes, d: bytes)
    requires CutAfter(def, rows0, Some(c), d)
    ensures Less(c, d)
  {
    var chunk :| IsBatch(BATCH, KeysAt(def, rows0, Some(c)), Some(c), chunk) && |chunk| == BATCH
                 && chunk[BATCH - 1] == d;
    assert d in chunk;
  }

  /** Cuts only go up. */
  lemma {:induction false} NoneAfter(def: TableDef, rows0: map<bytes, Row>, cuts: seq<bytes>, m: nat, i: nat)
    requires CutsOf(def, rows0, cuts) && m <= i < |cuts|
    ensures AtMost(cuts[m], cuts[i])
  {
    if i > m {
      NoneAfter(def, rows0, cuts, m, i - 1);
      assert LastOf(cuts[..i]) == Some(cuts[i - 1]) && CutAfter(def, rows0, LastOf(cuts[..i]), cuts[i]);
      CutHigher(def, rows0, cuts[i - 1], cuts[i]);
      if cuts[m] != cuts[i - 1] { LessTransitive(cuts[m], cuts[i - 1], cuts[i]); }
    }
  }

  /** A key of the table belongs to a row passed and in place, or to one still where it was. */
  lemma {:induction false} KeyOrigin(def: TableDef, rows0: map<bytes, Row>, cursor: Option<bytes>,
                                     rows: map<bytes, Row>, b: bytes) returns (k: bytes)
    requires Scanned(def, rows0, cursor, rows) && b in rows
    ensures k in rows0 && At(def, rows0, cursor, k) == b && rows[b] == rows0[k]
    ensures !Placed(def, b, rows[b]) ==> k == b && After(cursor, b)
  {
    assert b in KeysAt(def, rows0, cursor);
    k :| k in rows0 && At(def, rows0, cursor, k) == b;
    assert RowAt(def, rows0, cursor, rows, k);
  }

  /** The rows the scan has passed are clear. */
  ghost predicate ClearSoFar(def: TableDef, rows0: map<bytes, Row>, cursor: Option<bytes>, cuts: seq<bytes>) {
    forall k | k in rows0 && !After(cursor, k) ::
      (def.refold(rows0[k]) ==> def.home(rows0[k]).Some?)
      && (!Placed(def, k, rows0[k]) ==> Vacated(def, rows0, cuts, k))
  }

  /** A blocked row shows that the table is not clear, however the cuts go on from here. */
  lemma {:induction false} BlockedNotClear(def: TableDef, rows0: map<bytes, Row>, rows: map<bytes, Row>,
                                           cuts: seq<bytes>, chunk: seq<bytes>, i: nat, all: seq<bytes>)
    requires Scanned(def, rows0, LastOf(cuts), rows) && IsBatch(BATCH, rows.Keys, LastOf(cuts), chunk)
    requires CutsAscend(cuts) && i < |chunk| && Blocked(def, rows, chunk, i)
    requires CutsOf(def, rows0, all) && cuts <= all
    ensures !Clear(def, rows0, all)
  {
    var k, row := chunk[i], rows[chunk[i]];
    var o := KeyOrigin(def, rows0, LastOf(cuts), rows, k);
    if def.home(row).Some? {
      var to := Place(def, k, row);
      assert o == k && After(LastOf(cuts), k);
      if to in rows {
        var j := KeyOrigin(def, rows0, LastOf(cuts), rows, to);
        if !(j != k && Place(def, j, rows0[j]) == to) {
          assert j == to && After(LastOf(cuts), j);
          NeverBetween(def, rows0, rows, cuts, chunk, i, all, j);
          assert !Vacated(def, rows0, all, k);
        }
      } else {
        var j :| j in chunk[..i] && j in rows && !Placed(def, j, rows[j]) && Place(def, j, rows[j]) == to;
        var o' := KeyOrigin(def, rows0, LastOf(cuts), rows, j);
        BatchDistinct(BATCH, rows.Keys, LastOf(cuts), chunk);
        assert j != k;
      }
    }
  }

  /** The cuts so far lie before `j`, and those to come do not lie before the rows of this batch. */
  lemma {:induction false} NeverBetween(def: TableDef, rows0: map<bytes, Row>, rows: map<bytes, Row>, cuts: seq<bytes>,
                                        chunk: seq<bytes>, i: nat, all: seq<bytes>, j: bytes)
    requires Scanned(def, rows0, LastOf(cuts), rows) && IsBatch(BATCH, rows.Keys, LastOf(cuts), chunk)
    requires CutsAscend(cuts) && i < |chunk| && After(LastOf(cuts), j) && CutsOf(def, rows0, all) && cuts <= all
    ensures !Between(all, j, chunk[i])
  {
    forall c | c in all && Less(c, chunk[i]) ensures !AtMost(j, c) {
      var m :| 0 <= m < |all| && all[m] == c;
      if m < |cuts| {
        assert c == cuts[m];
        CutsBefore(cuts, j, c);
      } else {
        LaterCutPasses(def, rows0, rows, cuts, chunk, i, all, m);
      }
    }
  }

  lemma {:induction false} LaterCutPasses(def: TableDef, rows0: map<bytes, Row>, rows: map<bytes, Row>,
                                          cuts: seq<bytes>, chunk: seq<bytes>, i: nat, all: seq<bytes>, m: nat)
    requires Scanned(def, rows0, LastOf(cuts), rows) && IsBatch(BATCH, rows.Keys, LastOf(cuts), chunk)
    requires i < |chunk| && CutsOf(def, rows0, all) && cuts <= all && |cuts| <= m < |all|
    ensures !Less(all[m], chunk[i])
  {
    var c, next := all[m], all[|cuts|];
    NextCutPasses(def, rows0, rows, cuts, chunk, i, all);
    NoneAfter(def, rows0, all, |cuts|, m);
    if Less(c, chunk[i]) {
      LessAsymmetric(c, chunk[i]);
      if chunk[i] != next && next != c { LessTransitive(chunk[i], next, c); }
    }
  }

  /** The next cut is not before any row of the batch. */
  lemma {:induction false} NextCutPasses(def: TableDef, rows0: map<bytes, Row>, rows: map<bytes, Row>, cuts: seq<bytes>,
                                         chunk: seq<bytes>, i: nat, all: seq<bytes>)
    requires Scanned(def, rows0, LastOf(cuts), rows) && IsBatch(BATCH, rows.Keys, LastOf(cuts), chunk)
    requires i < |chunk| && CutsOf(def, rows0, all) && cuts < all
    ensures AtMost(chunk[i], all[|cuts|])
  {
    assert all[..|cuts|] == cuts && CutAfter(def, rows0, LastOf(all[..|cuts|]), all[|cuts|]);
    ScannedKeys(def, rows0, LastOf(cuts), rows);
    var full :| IsBatch(BATCH, rows.Keys, LastOf(cuts), full) && |full| == BATCH && full[BATCH - 1] == all[|cuts|];
    FullBatch(rows.Keys, LastOf(cuts), full, chunk);
  }

  /** Where there is a full batch, every batch is that one. */
  lemma {:induction false} FullBatch(keys: set<bytes>, cursor: Option<bytes>, full: seq<bytes>, chunk: seq<bytes>)
    requires IsBatch(BATCH, keys, cursor, full) && |full| == BATCH && IsBatch(BATCH, keys, cursor, chunk)
    ensures chunk == full
  {
    if |chunk| < BATCH {
      BatchDistinct(BATCH, keys, cursor, full);
      BatchDistinct(BATCH, keys, cursor, chunk);
      SeqSize(full);
      SeqSize(chunk);
      Subset(set k | k in full, set k | k in chunk);
    } else {
      BatchUnique(BATCH, keys, cursor, full, chunk, BATCH);
      assert full[..BATCH] == full && chunk[..BATCH] == chunk;
    }
  }

  /** More cuts only make room. */
  lemma {:induction false} ClearWithMore(def: TableDef, rows0: map<bytes, Row>, cuts: seq<bytes>, more: seq<bytes>)
    requires cuts <= more && Clear(def, rows0, cuts)
    ensures Clear(def, rows0, more)
  {
    forall k | k in rows0 && !Placed(def, k, rows0[k]) ensures Vacated(def, rows0, more, k) {
      MoreCuts(def, rows0, cuts, more, k);
    }
  }

  ghost predicate CutsAscend(cuts: seq<bytes>) {
    forall c | c in cuts :: AtMost(c, cuts[|cuts| - 1])
  }

  lemma {:induction false} CutsBefore(cuts: seq<bytes>, j: bytes, c: bytes)
    requires CutsAscend(cuts) && After(LastOf(cuts), j) && c in cuts
    ensures !AtMost(j, c)
  {
    var last := cuts[|cuts| - 1];
    LessAsymmetric(last, j);
    if AtMost(j, c) {
      if j != c && c != last { LessTransitive(j, c, last); }
    }
  }

  /** What a flush does to a row: it is where it belongs once the scan is past it. */
  lemma {:induction false} FlushedAt(def: TableDef, rows0: map<bytes, Row>, rows: map<bytes, Row>,
                                     cursor: Option<bytes>, chunk: seq<bytes>, p: Plan, k: bytes)
    requires Scanned(def, rows0, cursor, rows) && IsBatch(BATCH, rows.Keys, cursor, chunk) && chunk != []
    requires MovesAll(def, rows, chunk, p) && p.puts.Keys !! rows.Keys && k in rows0
    ensures RowAt(def, rows0, Some(chunk[|chunk| - 1]), Flushed(rows, p), k)
  {
    var end := chunk[|chunk| - 1];
    var was := At(def, rows0, cursor, k);
    assert RowAt(def, rows0, cursor, rows, k);
    if !After(cursor, k) {
      EndPasses(rows.Keys, cursor, chunk, k);
      assert Placed(def, was, rows[was]) && was !in p.dels;
    } else if After(Some(end), k) {
      NotInBatch(rows.Keys, cursor, chunk, k);
    } else {
      LessTotal(end, k);
      BatchCovers(BATCH, rows.Keys, cursor, chunk, k);
      if !Placed(def, k, rows[k]) {
        assert k in Movers(def, rows, chunk);
      }
    }
  }

  /** What the cursor had passed, the batch's end has. */
  lemma {:induction false} EndPasses(keys: set<bytes>, cursor: Option<bytes>, chunk: seq<bytes>, k: bytes)
    requires IsBatch(BATCH, keys, cursor, chunk) && chunk != [] && !After(cursor, k)
    ensures !After(Some(chunk[|chunk| - 1]), k)
  {
    var end := chunk[|chunk| - 1];
    assert end in chunk;
    if Less(end, k) { LessTransitive(cursor.value, end, k); }
  }

  lemma {:induction false} NotInBatch(keys: set<bytes>, cursor: Option<bytes>, chunk: seq<bytes>, k: bytes)
    requires IsBatch(BATCH, keys, cursor, chunk) && chunk != [] && Less(chunk[|chunk| - 1], k)
    ensures k !in chunk
  {
    LessAsymmetric(chunk[|chunk| - 1], k);
    forall n | 0 <= n < |chunk| ensures chunk[n] != k {
      if n < |chunk| - 1 { LessTransitive(chunk[n], chunk[|chunk| - 1], k); }
      LessIrreflexive(k);
    }
  }

  lemma {:induction false} FlushedScanned(def: TableDef, rows0: map<bytes, Row>, rows: map<bytes, Row>,
                                          cursor: Option<bytes>, chunk: seq<bytes>, p: Plan)
    requires Scanned(def, rows0, cursor, rows) && IsBatch(BATCH, rows.Keys, cursor, chunk) && chunk != []
    requires MovesAll(def, rows, chunk, p) && p.puts.Keys !! rows.Keys
    ensures Scanned(def, rows0, Some(chunk[|chunk| - 1]), Flushed(rows, p))
  {
    var end := Some(chunk[|chunk| - 1]);
    var now := Flushed(rows, p);
    forall k | k in rows0 ensures RowAt(def, rows0, end, now, k) {
      FlushedAt(def, rows0, rows, cursor, chunk, p, k);
    }
    forall b | b in now ensures b in KeysAt(def, rows0, end) {
      FlushedOrigin(def, rows0, rows, cursor, chunk, p, b);
    }
  }

  lemma {:induction false} FlushedOrigin(def: TableDef, rows0: map<bytes, Row>, rows: map<bytes, Row>,
                                         cursor: Option<bytes>, chunk: seq<bytes>, p: Plan, b: bytes)
    requires Scanned(def, rows0, cursor, rows) && IsBatch(BATCH, rows.Keys, cursor, chunk) && chunk != []
    requires MovesAll(def, rows, chunk, p) && b in Flushed(rows, p)
    ensures b in KeysAt(def, rows0, Some(chunk[|chunk| - 1]))
  {
    var end := chunk[|chunk| - 1];
    var at := b;
    if b in p.puts {
      at :| at in chunk && at in rows && !Placed(def, at, rows[at]) && Place(def, at, rows[at]) == b;
    }
    var k := KeyOrigin(def, rows0, cursor, rows, at);
    if b in p.puts {
      if Less(end, at) { NotInBatch(rows.Keys, cursor, chunk, at); }
      assert At(def, rows0, Some(end), k) == b;
    } else if !After(cursor, k) {
      EndPasses(rows.Keys, cursor, chunk, k);
      assert At(def, rows0, Some(end), k) == b;
    } else {
      if !After(Some(end), k) {
        LessTotal(end, k);
        BatchCovers(BATCH, rows.Keys, cursor, chunk, k);
        assert Placed(def, k, rows[k]);
      }
      assert At(def, rows0, Some(end), k) == b;
    }
  }

  /** The rows of an unblocked batch are clear. */
  lemma {:induction false} BatchClear(def: TableDef, rows0: map<bytes, Row>, rows: map<bytes, Row>, cuts: seq<bytes>,
                                      chunk: seq<bytes>, more: seq<bytes>)
    requires Scanned(def, rows0, LastOf(cuts), rows) && IsBatch(BATCH, rows.Keys, LastOf(cuts), chunk) && chunk != []
    requires ClearSoFar(def, rows0, LastOf(cuts), cuts) && (more == cuts || more == cuts + [chunk[|chunk| - 1]])
    requires NoneBlocked(def, rows, chunk)
    ensures ClearSoFar(def, rows0, Some(chunk[|chunk| - 1]), more)
  {
    var end := chunk[|chunk| - 1];
    forall k | k in rows0 && !After(Some(end), k)
      ensures (def.refold(rows0[k]) ==> def.home(rows0[k]).Some?)
              && (!Placed(def, k, rows0[k]) ==> Vacated(def, rows0, more, k))
    {
      if !After(LastOf(cuts), k) {
        MoreCuts(def, rows0, cuts, more, k);
      } else {
        assert RowAt(def, rows0, LastOf(cuts), rows, k);
        LessTotal(end, k);
        BatchCovers(BATCH, rows.Keys, LastOf(cuts), chunk, k);
        var i :| 0 <= i < |chunk| && chunk[i] == k;
        assert !Blocked(def, rows, chunk, i);
        BatchVacated(def, rows0, rows, cuts, more, k);
      }
    }
  }

  lemma {:induction false} MoreCuts(def: TableDef, rows0: map<bytes, Row>, cuts: seq<bytes>, more: seq<bytes>, k: bytes)
    requires k in rows0 && cuts <= more
    ensures Vacated(def, rows0, cuts, k) ==> Vacated(def, rows0, more, k)
  {
    var j := Place(def, k, rows0[k]);
    if Between(cuts, j, k) {
      var c :| c in cuts && AtMost(j, c) && Less(c, k);
      assert c in more;
    }
  }

  lemma {:induction false} BatchVacated(def: TableDef, rows0: map<bytes, Row>, rows: map<bytes, Row>, cuts: seq<bytes>,
                                        more: seq<bytes>, k: bytes)
    requires Scanned(def, rows0, LastOf(cuts), rows) && cuts <= more && k in rows0 && After(LastOf(cuts), k)
    requires !Placed(def, k, rows0[k]) ==> Place(def, k, rows0[k]) !in rows
    ensures !Placed(def, k, rows0[k]) ==> Vacated(def, rows0, more, k)
  {
    var j := Place(def, k, rows0[k]);
    if !Placed(def, k, rows0[k]) && j in rows0 {
      assert RowAt(def, rows0, LastOf(cuts), rows, j);
      var c := cuts[|cuts| - 1];
      LessTotal(c, j);
      assert c in more && AtMost(j, c) && Less(c, k);
    }
  }

  /** Where the scan stands with respect to its cuts. */
  ghost predicate CutSoFar(def: TableDef, rows0: map<bytes, Row>, rows: map<bytes, Row>, cuts: seq<bytes>) {
    && CutsAscend(cuts) && CutsOf(def, rows0, cuts)
    && Scanned(def, rows0, LastOf(cuts), rows) && ClearSoFar(def, rows0, LastOf(cuts), cuts)
  }

  /** The same under a quantifier: the verifier does not unfold it by itself in the loop. */
  ghost predicate Cutting(def: TableDef, rows0: map<bytes, Row>, rows: map<bytes, Row>, cuts: seq<bytes>) {
    forall n: nat :: FoldedCut(n, def, rows0, rows, cuts)
  }

  ghost predicate FoldedCut(n: nat, def: TableDef, rows0: map<bytes, Row>, rows: map<bytes, Row>, cuts: seq<bytes>) {
    CutSoFar(def, rows0, rows, cuts)
  }

  lemma {:induction false} CutStart(def: TableDef, rows0: map<bytes, Row>)
    ensures Cutting(def, rows0, rows0, [])
  {
    StartScanned(def, rows0);
    CutClose(def, rows0, rows0, []);
  }

  lemma {:induction false} StartScanned(def: TableDef, rows0: map<bytes, Row>)
    ensures Scanned(def, rows0, None, rows0)
  {
    StartKeys(def, rows0);
    forall k | k in rows0 ensures RowAt(def, rows0, None, rows0, k) {}
  }

  lemma {:induction false} CutKeeps(def: TableDef, rows0: map<bytes, Row>, rows: map<bytes, Row>, cuts: seq<bytes>)
    requires Cutting(def, rows0, rows, cuts)
    ensures CutsOf(def, rows0, cuts) && Scanned(def, rows0, LastOf(cuts), rows)
  {
    assert FoldedCut(0, def, rows0, rows, cuts);
  }

  lemma {:induction false} CutBlocked(def: TableDef, rows0: map<bytes, Row>, rows: map<bytes, Row>, cuts: seq<bytes>,
                                      chunk: seq<bytes>)
    requires Cutting(def, rows0, rows, cuts) && IsBatch(BATCH, rows.Keys, LastOf(cuts), chunk)
    requires exists i :: 0 <= i < |chunk| && Blocked(def, rows, chunk, i)
    ensures !Movable(def, rows0)
  {
    assert FoldedCut(0, def, rows0, rows, cuts);
    var i :| 0 <= i < |chunk| && Blocked(def, rows, chunk, i);
    forall all | CutsOf(def, rows0, all) ensures !Clear(def, rows0, all) {
      if |all| < |cuts| {
        CutsAgree(def, rows0, all, cuts, |all|);
        assert all[..|all|] == all;
        BlockedNotClear(def, rows0, rows, cuts, chunk, i, cuts);
        if Clear(def, rows0, all) { ClearWithMore(def, rows0, all, cuts); }
      } else {
        CutsAgree(def, rows0, all, cuts, |cuts|);
        assert cuts[..|cuts|] == cuts;
        BlockedNotClear(def, rows0, rows, cuts, chunk, i, all);
      }
    }
  }

  lemma {:induction false} CutNext(def: TableDef, rows0: map<bytes, Row>, rows: map<bytes, Row>, cuts: seq<bytes>,
                                   chunk: seq<bytes>, p: Plan)
    requires Cutting(def, rows0, rows, cuts) && IsBatch(BATCH, rows.Keys, LastOf(cuts), chunk) && |chunk| == BATCH
    requires MovesAll(def, rows, chunk, p) && p.puts.Keys !! rows.Keys && NoneBlocked(def, rows, chunk)
    ensures Cutting(def, rows0, Flushed(rows, p), cuts + [chunk[BATCH - 1]])
  {
    assert FoldedCut(0, def, rows0, rows, cuts);
    var more := cuts + [chunk[BATCH - 1]];
    FlushedScanned(def, rows0, rows, LastOf(cuts), chunk, p);
    BatchClear(def, rows0, rows, cuts, chunk, more);
    NextCut(def, rows0, rows, cuts, chunk);
    assert LastOf(more) == Some(chunk[BATCH - 1]);
    CutClose(def, rows0, Flushed(rows, p), more);
  }

  lemma {:induction false} CutClose(def: TableDef, rows0: map<bytes, Row>, rows: map<bytes, Row>, cuts: seq<bytes>)
    requires CutsAscend(cuts) && CutsOf(def, rows0, cuts)
    requires Scanned(def, rows0, LastOf(cuts), rows) && ClearSoFar(def, rows0, LastOf(cuts), cuts)
    ensures Cutting(def, rows0, rows, cuts)
  {
    assert CutSoFar(def, rows0, rows, cuts);
  }

  ghost predicate NoneBlocked(def: TableDef, rows: map<bytes, Row>, chunk: seq<bytes>) {
    forall i | 0 <= i < |chunk| && chunk[i] in rows :: !Blocked(def, rows, chunk, i)
  }

  lemma {:induction false} NextCut(def: TableDef, rows0: map<bytes, Row>, rows: map<bytes, Row>, cuts: seq<bytes>,
                                   chunk: seq<bytes>)
    requires CutsOf(def, rows0, cuts) && CutsAscend(cuts) && Scanned(def, rows0, LastOf(cuts), rows)
    requires IsBatch(BATCH, rows.Keys, LastOf(cuts), chunk) && |chunk| == BATCH
    ensures CutsOf(def, rows0, cuts + [chunk[BATCH - 1]]) && CutsAscend(cuts + [chunk[BATCH - 1]])
  {
    var end := chunk[BATCH - 1];
    var more := cuts + [end];
    assert end in chunk;
    ScannedKeys(def, rows0, LastOf(cuts), rows);
    forall i | 0 <= i < |more| ensures CutAfter(def, rows0, LastOf(more[..i]), more[i]) {
      if i < |cuts| {
        assert more[..i] == cuts[..i];
        assert CutAfter(def, rows0, LastOf(cuts[..i]), cuts[i]);
      } else {
        assert more[..i] == cuts;
      }
    }
    forall c | c in more ensures AtMost(c, end) {
      if c in cuts && c != cuts[|cuts| - 1] { LessTransitive(c, cuts[|cuts| - 1], end); }
    }
  }

  /** No row was ahead, or the last batch was short: with every row in place, all rows were clear. */
  lemma {:induction false} CutEnd(def: TableDef, rows0: map<bytes, Row>, rows: map<bytes, Row>, cuts: seq<bytes>,
                                  chunk: seq<bytes>, now: map<bytes, Row>)
    requires Cutting(def, rows0, rows, cuts) && IsBatch(BATCH, rows.Keys, LastOf(cuts), chunk) && |chunk| < BATCH
    requires NoneBlocked(def, rows, chunk) && Bag(def, now) == Bag(def, rows0) && AtHome(def, now, now.Keys)
    ensures Clear(def, rows0, cuts)
  {
    assert FoldedCut(0, def, rows0, rows, cuts);
    var end := if chunk == [] then LastOf(cuts) else Some(chunk[|chunk| - 1]);
    if chunk != [] {
      BatchClear(def, rows0, rows, cuts, chunk, cuts);
    }
    forall k | k in rows0 ensures !After(end, k) {
      AllPassed(def, rows0, rows, cuts, chunk, k);
    }
    forall j, k | j in rows0 && k in rows0 && j != k ensures Place(def, j, rows0[j]) != Place(def, k, rows0[k]) {
      MigratedMeansDistinct(def, rows0, now, j, k);
    }
  }

  lemma {:induction false} AllPassed(def: TableDef, rows0: map<bytes, Row>, rows: map<bytes, Row>, cuts: seq<bytes>,
                                     chunk: seq<bytes>, k: bytes)
    requires Scanned(def, rows0, LastOf(cuts), rows) && IsBatch(BATCH, rows.Keys, LastOf(cuts), chunk)
             && |chunk| < BATCH && k in rows0
    ensures !After(if chunk == [] then LastOf(cuts) else Some(chunk[|chunk| - 1]), k)
  {
    assert RowAt(def, rows0, LastOf(cuts), rows, k);
    if After(LastOf(cuts), k) {
      assert k in chunk;
      if Less(chunk[|chunk| - 1], k) { NotInBatch(rows.Keys, LastOf(cuts), chunk, k); }
    } else if chunk != [] {
      EndPasses(rows.Keys, LastOf(cuts), chunk, k);
    }
  }

  // -------------------------------------------------------------- the table's outer loop

  /** Where the rebuilding of a table stands: what the cursor passed is in place and indexed. */
  ghost predicate Rebuilt(def: TableDef, rows0: map<bytes, Row>, t: Table, cursor: Option<bytes>, seen: set<bytes>) {
    && Bag(def, t.rows) == Bag(def, rows0) && Kept(def, rows0, t.rows)
    && (NoClash(def, rows0) ==> Indexed(def, t.rows, t.index, seen))
    && AtHome(def, t.rows, seen) && Reached(t.rows, cursor, seen)
  }

  /** The same under a quantifier: the verifier does not unfold it by itself in the loop. */
  ghost predicate Rebuilding(def: TableDef, rows0: map<bytes, Row>, t: Table, cursor: Option<bytes>, seen: set<bytes>) {
    forall n: nat :: FoldedRebuild(n, def, rows0, t, cursor, seen)
  }

  ghost predicate FoldedRebuild(n: nat, def: TableDef, rows0: map<bytes, Row>, t: Table, cursor: Option<bytes>,
                                seen: set<bytes>) {
    Rebuilt(def, rows0, t, cursor, seen)
  }

  lemma {:induction false} RebuildStart(def: TableDef, t: Table)
    requires t.index == map[]
    ensures Rebuilding(def, t.rows, t, None, {})
  {
    KeptSame(def, t.rows);
  }

  lemma {:induction false} RebuildKeeps(def: TableDef, rows0: map<bytes, Row>, t: Table, cursor: Option<bytes>,
                                        seen: set<bytes>)
    requires Rebuilding(def, rows0, t, cursor, seen)
    ensures Bag(def, t.rows) == Bag(def, rows0) && Kept(def, rows0, t.rows)
  {
    assert FoldedRebuild(0, def, rows0, t, cursor, seen);
  }

  /** The whole table has been seen. */
  lemma {:induction false} RebuildDone(def: TableDef, rows0: map<bytes, Row>, t: Table, cursor: Option<bytes>,
                                       seen: set<bytes>)
    requires Rebuilding(def, rows0, t, cursor, seen) && t.rows.Keys <= seen
    ensures AtHome(def, t.rows, t.rows.Keys) && (NoClash(def, rows0) ==> Migrated(def, t))
  {
    assert FoldedRebuild(0, def, rows0, t, cursor, seen);
    assert t.rows.Keys == seen;
  }

  lemma {:induction false} RebuildEnd(def: TableDef, rows0: map<bytes, Row>, t: Table, cursor: Option<bytes>,
                                      seen: set<bytes>)
    requires Rebuilding(def, rows0, t, cursor, seen) && IsBatch(BATCH, t.rows.Keys, cursor, [])
    ensures AtHome(def, t.rows, t.rows.Keys) && (NoClash(def, rows0) ==> Migrated(def, t))
  {
    assert FoldedRebuild(0, def, rows0, t, cursor, seen);
    AllReached(t.rows, cursor, seen);
    RebuildDone(def, rows0, t, cursor, seen);
  }

  lemma {:induction false} RebuildNext(def: TableDef, rows0: map<bytes, Row>, t: Table, cursor: Option<bytes>,
                                       chunk: seq<bytes>, p: Plan,
                                       seen: set<bytes>, seen': set<bytes>)
    requires Rebuilding(def, rows0, t, cursor, seen) && IsBatch(BATCH, t.rows.Keys, cursor, chunk) && chunk != []
    requires Planned(def, t.rows, chunk, p, t.index, seen, seen')
    ensures Rebuilding(def, rows0, Table(Flushed(t.rows, p), t.index + p.entries), Some(chunk[|chunk| - 1]), seen')
    ensures |chunk| < BATCH ==> Flushed(t.rows, p).Keys <= seen'
  {
    assert FoldedRebuild(0, def, rows0, t, cursor, seen);
    FlushReaches(def, t, cursor, chunk, p, seen, seen');
    OpenKept(def, rows0, t.rows);
    KeptTwice(def, rows0, t.rows, Flushed(t.rows, p));
  }

  /** Both of what the loop keeps. */
  ghost predicate Midway(def: TableDef, rows0: map<bytes, Row>, t: Table, cuts: seq<bytes>, seen: set<bytes>) {
    Rebuilding(def, rows0, t, LastOf(cuts), seen) && Cutting(def, rows0, t.rows, cuts)
  }

  lemma {:induction false} MidwayStart(def: TableDef, t: Table)
    requires t.index == map[]
    ensures Midway(def, t.rows, t, [], {})
  {
    RebuildStart(def, t);
    CutStart(def, t.rows);
  }

  lemma {:induction false} MidwayKeeps(def: TableDef, rows0: map<bytes, Row>, t: Table, cuts: seq<bytes>,
                                       seen: set<bytes>)
    requires Midway(def, rows0, t, cuts, seen)
    ensures Bag(def, t.rows) == Bag(def, rows0) && Kept(def, rows0, t.rows) && CutsOf(def, rows0, cuts)
  {
    RebuildKeeps(def, rows0, t, LastOf(cuts), seen);
    CutKeeps(def, rows0, t.rows, cuts);
  }

  lemma {:induction false} MidwayScanned(def: TableDef, rows0: map<bytes, Row>, t: Table, cuts: seq<bytes>,
                                         seen: set<bytes>)
    requires Midway(def, rows0, t, cuts, seen)
    ensures Scanned(def, rows0, LastOf(cuts), t.rows)
  {
    CutKeeps(def, rows0, t.rows, cuts);
  }

  lemma {:induction false} MidwayEnd(def: TableDef, rows0: map<bytes, Row>, t: Table, cuts: seq<bytes>,
                                     seen: set<bytes>)
    requires Midway(def, rows0, t, cuts, seen) && IsBatch(BATCH, t.rows.Keys, LastOf(cuts), [])
    ensures AtHome(def, t.rows, t.rows.Keys) && (NoClash(def, rows0) ==> Migrated(def, t)) && Clear(def, rows0, cuts)
    ensures Movable(def, rows0)
  {
    MidwayKeeps(def, rows0, t, cuts, seen);
    RebuildEnd(def, rows0, t, LastOf(cuts), seen);
    CutEnd(def, rows0, t.rows, cuts, [], t.rows);
  }

  lemma {:induction false} MidwayBlocked(def: TableDef, rows0: map<bytes, Row>, t: Table, cuts: seq<bytes>,
                                         seen: set<bytes>,
                                         chunk: seq<bytes>)
    requires Midway(def, rows0, t, cuts, seen) && IsBatch(BATCH, t.rows.Keys, LastOf(cuts), chunk)
    requires exists n :: 0 <= n < |chunk| && Blocked(def, t.rows, chunk, n)
    ensures !Movable(def, rows0)
  {
    CutBlocked(def, rows0, t.rows, cuts, chunk);
  }

  lemma {:induction false} MidwayShort(def: TableDef, rows0: map<bytes, Row>, t: Table, cuts: seq<bytes>,
                                       chunk: seq<bytes>, p: Plan,
                                       seen: set<bytes>, seen': set<bytes>)
    requires Midway(def, rows0, t, cuts, seen) && IsBatch(BATCH, t.rows.Keys, LastOf(cuts), chunk)
             && 0 < |chunk| < BATCH
    requires PlannedSoFar(def, t.rows, chunk, p, t.index, seen, seen') && NoneBlocked(def, t.rows, chunk)
    ensures
      var t' := Table(Flushed(t.rows, p), t.index + p.entries);
      && Bag(def, t'.rows) == Bag(def, rows0) && Kept(def, rows0, t'.rows) && AtHome(def, t'.rows, t'.rows.Keys)
      && (NoClash(def, rows0) ==> Migrated(def, t')) && Clear(def, rows0, cuts) && Movable(def, rows0)
  {
    CutKeeps(def, rows0, t.rows, cuts);
    Unfold(def, t.rows, chunk, p, t.index, seen, seen');
    var t', end := Table(Flushed(t.rows, p), t.index + p.entries), Some(chunk[|chunk| - 1]);
    RebuildNext(def, rows0, t, LastOf(cuts), chunk, p, seen, seen');
    RebuildKeeps(def, rows0, t', end, seen');
    RebuildDone(def, rows0, t', end, seen');
    CutEnd(def, rows0, t.rows, cuts, chunk, t'.rows);
  }

  lemma {:induction false} MidwayNext(def: TableDef, rows0: map<bytes, Row>, t: Table, cuts: seq<bytes>,
                                      chunk: seq<bytes>, p: Plan,
                                      seen: set<bytes>, seen': set<bytes>)
    requires Midway(def, rows0, t, cuts, seen) && IsBatch(BATCH, t.rows.Keys, LastOf(cuts), chunk) && |chunk| == BATCH
    requires PlannedSoFar(def, t.rows, chunk, p, t.index, seen, seen') && NoneBlocked(def, t.rows, chunk)
    ensures Midway(def, rows0, Table(Flushed(t.rows, p), t.index + p.entries), cuts + [chunk[BATCH - 1]], seen')
    ensures
      || |Unplaced(def, Flushed(t.rows, p))| < |Unplaced(def, t.rows)|
      || (Flushed(t.rows, p) == t.rows
          && |Ahead(t.rows.Keys, Some(chunk[BATCH - 1]))| < |Ahead(t.rows.Keys, LastOf(cuts))|)
  {
    Unfold(def, t.rows, chunk, p, t.index, seen, seen');
    FlushProgress(def, t.rows, LastOf(cuts), chunk, p);
    RebuildNext(def, rows0, t, LastOf(cuts), chunk, p, seen, seen');
    CutNext(def, rows0, t.rows, cuts, chunk, p);
    assert LastOf(cuts + [chunk[BATCH - 1]]) == Some(chunk[BATCH - 1]);
  }

  // ------------------------------------------------------------------- a chain of rows

  /** Keys are refolded, and a row's only value is the key it belongs at. */
  const CHAIN_DEF := TableDef(true, (row: Row) => true,
                              (row: Row) => if |row| == 1 && row[0].Blob? then Some(row[0].data) else None,
                              (row: Row, k: bytes) => map[])

  /** The row at 1 belongs at 2, and the row at 2 belongs at 3. */
  const CHAIN: map<bytes, Row> := map[[1] := [Blob([2])], [2] := [Blob([3])]]

  /** No two rows of the chain belong at one place, and yet it is not clear: the row at 2 is yet to leave. */
  lemma {:induction false} ChainNotClear()
    ensures forall j, k | j in CHAIN && k in CHAIN && j != k ::
              Place(CHAIN_DEF, j, CHAIN[j]) != Place(CHAIN_DEF, k, CHAIN[k])
    ensures !Movable(CHAIN_DEF, CHAIN)
  {
    assert CHAIN.Keys == {[1], [2]};
    assert !Vacated(CHAIN_DEF, CHAIN, [], [1]);
    forall cuts | CutsOf(CHAIN_DEF, CHAIN, cuts) ensures !Clear(CHAIN_DEF, CHAIN, cuts) {
      OneBatchClear(CHAIN_DEF, CHAIN, cuts);
    }
  }

  /** The batch of the chain is reported as a clash, although no two keys become equal. */
  method PlanChain() returns (o: Outcome)
    ensures o == Clash
  {
    assert Blocked(CHAIN_DEF, CHAIN, [[1], [2]], 0);
    var p;
    ghost var seen;
    o, p, seen := PlanBatch(CHAIN_DEF, CHAIN, [[1], [2]], map[], {});
  }

  /**
   * After a flush, either a row found its place or fewer rows are ahead: the scan ends although rows move ahead of
   * it.
   */
  lemma {:induction false} FlushProgress(def: TableDef, rows: map<bytes, Row>, cursor: Option<bytes>, chunk: seq<bytes>,
                                         p: Plan)
    requires IsBatch(BATCH, rows.Keys, cursor, chunk) && chunk != [] && Safe(def, rows, p)
    ensures
      || |Unplaced(def, Flushed(rows, p))| < |Unplaced(def, rows)|
      || (Flushed(rows, p) == rows && |Ahead(rows.Keys, Some(chunk[|chunk| - 1]))| < |Ahead(rows.Keys, cursor)|)
  {
    if p.puts == map[] {
      assert Flushed(rows, p) == rows;
      CursorPasses(BATCH, rows.Keys, cursor, chunk);
    }
  }

  lemma {:induction false} FlushedTable(t: Table, p: Plan)
    ensures (t.index - {}) + p.entries == t.index + p.entries
    ensures p == Plan(map[], {}, map[]) ==> Flushed(t.rows, p) == t.rows && t.index + p.entries == t.index
  {
  }

  /** Every table keeps its rows, each with the place it belongs to. */
  ghost predicate Conserved(defs: seq<TableDef>, before: seq<Table>, now: seq<Table>) {
    |defs| == |before| == |now| && forall i | 0 <= i < |defs| ::
      && Bag(defs[i], now[i].rows) == Bag(defs[i], before[i].rows)
      && Kept(defs[i], before[i].rows, now[i].rows)
      && (!defs[i].active ==> now[i] == before[i])
  }

  lemma {:induction false} OneTable(defs: seq<TableDef>, before: seq<Table>, now: seq<Table>, i: nat)
    requires |defs| == |before| == |now| && i < |defs| && defs[i].active
    requires forall j | 0 <= j < |defs| && j != i :: now[j] == before[j]
    requires Bag(defs[i], now[i].rows) == Bag(defs[i], before[i].rows)
    requires Kept(defs[i], before[i].rows, now[i].rows)
    ensures Conserved(defs, before, now)
  {
    forall j | 0 <= j < |defs| && j != i ensures Kept(defs[j], before[j].rows, now[j].rows) {
      KeptSame(defs[j], before[j].rows);
    }
  }

  lemma {:induction false} ConservedTwice(defs: seq<TableDef>, a: seq<Table>, b: seq<Table>, c: seq<Table>)
    requires Conserved(defs, a, b) && Conserved(defs, b, c)
    ensures Conserved(defs, a, c)
    ensures NoClashes(defs, a) ==> NoClashes(defs, b)
    ensures AllFree(defs, a) ==> AllFree(defs, b)
  {
    forall i | 0 <= i < |defs|
      ensures Kept(defs[i], a[i].rows, c[i].rows)
      ensures NoClash(defs[i], a[i].rows) ==> NoClash(defs[i], b[i].rows)
      ensures Free(defs[i], a[i].rows) ==> Free(defs[i], b[i].rows)
    {
      OpenKept(defs[i], a[i].rows, b[i].rows);
      KeptTwice(defs[i], a[i].rows, b[i].rows, c[i].rows);
    }
  }

  ghost predicate NoClashes(defs: seq<TableDef>, tables: seq<Table>) {
    |defs| == |tables| && forall i | 0 <= i < |defs| :: NoClash(defs[i], tables[i].rows)
  }

  ghost predicate AllFree(defs: seq<TableDef>, tables: seq<Table>) {
    |defs| == |tables| && forall i | 0 <= i < |defs| :: Free(defs[i], tables[i].rows)
  }

  /** What a start can leave of a table: the rows its cuts have passed in place, or all of them. */
  ghost predicate Leaves(def: TableDef, rows0: map<bytes, Row>, rows: map<bytes, Row>) {
    || (exists cuts :: CutsOf(def, rows0, cuts) && Scanned(def, rows0, LastOf(cuts), rows))
    || (Bag(def, rows) == Bag(def, rows0) && AtHome(def, rows, rows.Keys))
  }

  /** The same under a quantifier: the verifier does not unfold it by itself in the methods. */
  ghost predicate LeftBy(def: TableDef, rows0: map<bytes, Row>, rows: map<bytes, Row>) {
    forall n: nat :: FoldedLeft(n, def, rows0, rows)
  }

  ghost predicate FoldedLeft(n: nat, def: TableDef, rows0: map<bytes, Row>, rows: map<bytes, Row>) {
    Leaves(def, rows0, rows)
  }

  lemma {:induction false} LeftCut(def: TableDef, rows0: map<bytes, Row>, cuts: seq<bytes>, rows: map<bytes, Row>)
    requires CutsOf(def, rows0, cuts) && Scanned(def, rows0, LastOf(cuts), rows)
    ensures LeftBy(def, rows0, rows)
  {
    assert Leaves(def, rows0, rows);
  }

  lemma {:induction false} LeftDone(def: TableDef, rows0: map<bytes, Row>, rows: map<bytes, Row>)
    requires Bag(def, rows) == Bag(def, rows0) && AtHome(def, rows, rows.Keys)
    ensures LeftBy(def, rows0, rows)
  {
    assert Leaves(def, rows0, rows);
  }

  lemma {:induction false} NoCuts(def: TableDef, rows0: map<bytes, Row>)
    ensures CutsOf(def, rows0, [])
  {
  }

  ghost predicate AllLeft(defs: seq<TableDef>, before: seq<Table>, now: seq<Table>) {
    forall n: nat :: FoldedAllLeft(n, defs, before, now)
  }

  ghost predicate FoldedAllLeft(n: nat, defs: seq<TableDef>, before: seq<Table>, now: seq<Table>) {
    |defs| == |before| == |now| && forall i | 0 <= i < |defs| :: LeftBy(defs[i], before[i].rows, now[i].rows)
  }

  lemma {:induction false} OpenLeft(defs: seq<TableDef>, before: seq<Table>, now: seq<Table>)
    requires AllLeft(defs, before, now)
    ensures |defs| == |before| == |now|
    ensures forall i | 0 <= i < |defs| :: LeftBy(defs[i], before[i].rows, now[i].rows)
  {
    assert FoldedAllLeft(0, defs, before, now);
  }

  lemma {:induction false} LeftSame(def: TableDef, rows: map<bytes, Row>)
    ensures LeftBy(def, rows, rows)
  {
    StartScanned(def, rows);
    NoCuts(def, rows);
    LeftCut(def, rows, [], rows);
  }

  lemma {:induction false} AllLeftSame(defs: seq<TableDef>, tables: seq<Table>)
    requires |defs| == |tables|
    ensures AllLeft(defs, tables, tables)
  {
    forall i | 0 <= i < |defs| ensures LeftBy(defs[i], tables[i].rows, tables[i].rows) {
      LeftSame(defs[i], tables[i].rows);
    }
  }

  lemma {:induction false} OneLeft(defs: seq<TableDef>, start: seq<Table>, before: seq<Table>, now: seq<Table>, i: nat)
    requires |defs| == |start| == |before| == |now| && AllLeft(defs, start, before)
    requires i < |defs| && before[i] == start[i]
    requires forall j | 0 <= j < |defs| && j != i :: now[j] == before[j]
    requires LeftBy(defs[i], start[i].rows, now[i].rows)
    ensures AllLeft(defs, start, now)
  {
    OpenLeft(defs, start, before);
  }

  /** Where a start stands that has done the first `i` tables; under a quantifier, as above. */
  ghost predicate Halfway(defs: seq<TableDef>, start: seq<Table>, now: seq<Table>, i: nat) {
    forall n: nat :: FoldedHalfway(n, defs, start, now, i)
  }

  ghost predicate FoldedHalfway(n: nat, defs: seq<TableDef>, start: seq<Table>, now: seq<Table>, i: nat) {
    && |defs| == |start| == |now| && i <= |defs| && Conserved(defs, start, now) && AllLeft(defs, start, now)
    && (forall j | i <= j < |defs| :: now[j] == start[j])
    && (forall j | 0 <= j < i && defs[j].active :: Settled(defs[j], start[j], now[j]))
  }

  /** The table could be moved, and is migrated unless two of its rows share an index key. */
  ghost predicate Settled(def: TableDef, start: Table, now: Table) {
    forall n: nat :: FoldedSettled(n, def, start, now)
  }

  ghost predicate FoldedSettled(n: nat, def: TableDef, start: Table, now: Table) {
    Movable(def, start.rows) && (NoClash(def, start.rows) ==> Migrated(def, now))
  }

  lemma {:induction false} HalfwayStart(defs: seq<TableDef>, tables: seq<Table>)
    requires |defs| == |tables|
    ensures Halfway(defs, tables, tables, 0)
  {
    AllLeftSame(defs, tables);
    ConservedSame(defs, tables);
    assert FoldedHalfway(0, defs, tables, tables, 0);
  }

  lemma {:induction false} HalfwayKeeps(defs: seq<TableDef>, start: seq<Table>, now: seq<Table>, i: nat)
    requires Halfway(defs, start, now, i)
    ensures Conserved(defs, start, now) && AllLeft(defs, start, now)
  {
    assert FoldedHalfway(0, defs, start, now, i);
  }

  /** Table `i` may have changed, as far as a start that is cut off or reports a clash changes it. */
  lemma {:induction false} HalfwayStop(defs: seq<TableDef>, start: seq<Table>, before: seq<Table>, now: seq<Table>,
                                       i: nat)
    requires Halfway(defs, start, before, i) && i < |defs| == |start| == |before| == |now| && defs[i].active
    requires forall j | 0 <= j < |defs| && j != i :: now[j] == before[j]
    requires Bag(defs[i], now[i].rows) == Bag(defs[i], before[i].rows)
    requires Kept(defs[i], before[i].rows, now[i].rows) && LeftBy(defs[i], before[i].rows, now[i].rows)
    ensures Conserved(defs, start, now) && AllLeft(defs, start, now)
    ensures !Movable(defs[i], before[i].rows) ==> !AllMovable(defs, start)
  {
    assert FoldedHalfway(0, defs, start, before, i);
    OneTable(defs, before, now, i);
    ConservedTwice(defs, start, before, now);
    OneLeft(defs, start, before, now, i);
    if AllMovable(defs, start) { assert FoldedMovable(0, defs, start); }
  }

  lemma {:induction false} HalfwayNext(defs: seq<TableDef>, start: seq<Table>, before: seq<Table>, now: seq<Table>,
                                       i: nat)
    requires Halfway(defs, start, before, i) && i < |defs| == |start| == |before| == |now|
    requires forall j | 0 <= j < |defs| && j != i :: now[j] == before[j]
    requires !defs[i].active ==> now[i] == before[i]
    requires defs[i].active ==>
               && Bag(defs[i], now[i].rows) == Bag(defs[i], before[i].rows)
               && Kept(defs[i], before[i].rows, now[i].rows) && LeftBy(defs[i], before[i].rows, now[i].rows)
               && Settled(defs[i], before[i], now[i])
    ensures Halfway(defs, start, now, i + 1)
  {
    assert FoldedHalfway(0, defs, start, before, i);
    if defs[i].active {
      HalfwayStop(defs, start, before, now, i);
    } else {
      assert now == before;
    }
    assert FoldedHalfway(0, defs, start, now, i + 1);
  }

  lemma {:induction false} HalfwayEnd(defs: seq<TableDef>, start: seq<Table>, now: seq<Table>)
    requires Halfway(defs, start, now, |defs|)
    ensures AllMovable(defs, start) && (NoClashes(defs, start) ==> AllMigrated(defs, now))
  {
    assert FoldedHalfway(0, defs, start, now, |defs|);
    forall i | 0 <= i < |defs| && defs[i].active
      ensures Movable(defs[i], start[i].rows) && (NoClash(defs[i], start[i].rows) ==> Migrated(defs[i], now[i]))
    {
      assert FoldedSettled(0, defs[i], start[i], now[i]);
    }
    assert FoldedMovable(0, defs, start);
  }

  /** Tables one after the other, each left by a start on the one before. */
  ghost predicate Trail(def: TableDef, trail: seq<map<bytes, Row>>) {
    trail != [] && forall i | 0 <= i < |trail| - 1 :: LeftBy(def, trail[i], trail[i + 1])
  }

  /** What any number of starts can leave of a table. */
  ghost predicate ReachableRows(def: TableDef, rows0: map<bytes, Row>, rows: map<bytes, Row>) {
    exists trail :: Trail(def, trail) && trail[0] == rows0 && trail[|trail| - 1] == rows
  }

  /** What any number of starts can leave of all tables; under a quantifier, as above. */
  ghost predicate AllReachable(defs: seq<TableDef>, start: seq<Table>, now: seq<Table>) {
    forall n: nat :: FoldedReachable(n, defs, start, now)
  }

  ghost predicate FoldedReachable(n: nat, defs: seq<TableDef>, start: seq<Table>, now: seq<Table>) {
    |defs| == |start| == |now| && forall i | 0 <= i < |defs| :: ReachableRows(defs[i], start[i].rows, now[i].rows)
  }

  lemma {:induction false} AllReachableSame(defs: seq<TableDef>, tables: seq<Table>)
    requires |defs| == |tables|
    ensures AllReachable(defs, tables, tables)
  {
    forall i | 0 <= i < |defs| ensures ReachableRows(defs[i], tables[i].rows, tables[i].rows) {
      assert Trail(defs[i], [tables[i].rows]);
    }
  }

  lemma {:induction false} TrailNext(def: TableDef, rows0: map<bytes, Row>, rows: map<bytes, Row>,
                                     now: map<bytes, Row>)
    requires ReachableRows(def, rows0, rows) && LeftBy(def, rows, now)
    ensures ReachableRows(def, rows0, now)
  {
    var trail :| Trail(def, trail) && trail[0] == rows0 && trail[|trail| - 1] == rows;
    var more := trail + [now];
    forall i | 0 <= i < |more| - 1 ensures LeftBy(def, more[i], more[i + 1]) {
      if i < |trail| - 1 { assert LeftBy(def, trail[i], trail[i + 1]); }
    }
    assert Trail(def, more) && more[0] == rows0 && more[|more| - 1] == now;
  }

  lemma {:induction false} ReachableNext(defs: seq<TableDef>, start: seq<Table>, before: seq<Table>, now: seq<Table>)
    requires AllReachable(defs, start, before) && AllLeft(defs, before, now)
    ensures AllReachable(defs, start, now)
  {
    assert FoldedReachable(0, defs, start, before);
    OpenLeft(defs, before, now);
    forall i | 0 <= i < |defs| ensures ReachableRows(defs[i], start[i].rows, now[i].rows) {
      TrailNext(defs[i], start[i].rows, before[i].rows, now[i].rows);
    }
  }

  /** What a chain of starts keeps; `found` are the tables the last start found that had work to do. */
  ghost predicate Chain(defs: seq<TableDef>, start: seq<Table>, now: seq<Table>, found: seq<Table>, version: int,
                        o: Outcome) {
    forall n: nat :: FoldedChain(n, defs, start, now, found, version, o)
  }

  ghost predicate FoldedChain(n: nat, defs: seq<TableDef>, start: seq<Table>, now: seq<Table>, found: seq<Table>,
                              version: int, o: Outcome) {
    && Conserved(defs, start, now) && AllReachable(defs, start, now) && AllReachable(defs, start, found)
    && (o.Done? ==> version >= VERSION) && (version >= VERSION ==> AllMovable(defs, found))
    && (o.Clash? ==> !AllMovable(defs, found)) && (AllFree(defs, start) ==> !o.Clash?)
    && (version >= VERSION && NoClashes(defs, start) ==> AllMigrated(defs, now))
  }

  lemma {:induction false} ConservedSame(defs: seq<TableDef>, tables: seq<Table>)
    requires |defs| == |tables|
    ensures Conserved(defs, tables, tables)
  {
    forall i | 0 <= i < |defs| ensures Kept(defs[i], tables[i].rows, tables[i].rows) {
      KeptSame(defs[i], tables[i].rows);
    }
  }

  lemma {:induction false} ChainStart(defs: seq<TableDef>, tables: seq<Table>, version: int)
    requires |defs| == |tables| && version < VERSION
    ensures Chain(defs, tables, tables, tables, version, Crashed)
  {
    ConservedSame(defs, tables);
    AllReachableSame(defs, tables);
    assert FoldedChain(0, defs, tables, tables, tables, version, Crashed);
  }

  /** One more start, which does what `Migrate` does. */
  lemma {:induction false} ChainNext(defs: seq<TableDef>, start: seq<Table>, before: seq<Table>, found: seq<Table>,
                                     v: int, o0: Outcome, now: seq<Table>, version: int, o: Outcome)
    requires Chain(defs, start, before, found, v, o0)
    requires Conserved(defs, before, now) && AllLeft(defs, before, now)
    requires (o.Done? ==> version >= VERSION) && (!o.Done? ==> version == v) && (version == v || version == VERSION)
    requires (o.Clash? ==> !AllMovable(defs, before)) && (o.Done? && v < VERSION ==> AllMovable(defs, before))
    requires v >= VERSION ==> o.Done? && now == before && version == v
    requires version > v && NoClashes(defs, before) ==> AllMigrated(defs, now)
    ensures Chain(defs, start, now, if v < VERSION then before else found, version, o)
  {
    assert FoldedChain(0, defs, start, before, found, v, o0);
    ConservedTwice(defs, start, before, now);
    ReachableNext(defs, start, before, now);
    if AllFree(defs, start) { AllFreeMovable(defs, before); }
    assert FoldedChain(0, defs, start, now, if v < VERSION then before else found, version, o);
  }

  lemma {:induction false} ChainEnd(defs: seq<TableDef>, start: seq<Table>, now: seq<Table>, found: seq<Table>,
                                    version: int, o: Outcome)
    requires Chain(defs, start, now, found, version, o)
    ensures Conserved(defs, start, now) && AllReachable(defs, start, found)
    ensures (o.Done? ==> AllMovable(defs, found)) && (o.Clash? ==> !AllMovable(defs, found))
    ensures (AllFree(defs, start) ==> !o.Clash?) && (o.Done? && NoClashes(defs, start) ==> AllMigrated(defs, now))
  {
    assert FoldedChain(0, defs, start, now, found, version, o);
  }

  /** Every table that is to be migrated is movable; under a quantifier, as above. */
  ghost predicate AllMovable(defs: seq<TableDef>, tables: seq<Table>) {
    forall n: nat :: FoldedMovable(n, defs, tables)
  }

  ghost predicate FoldedMovable(n: nat, defs: seq<TableDef>, tables: seq<Table>) {
    |defs| == |tables| && forall i | 0 <= i < |defs| :: defs[i].active ==> Movable(defs[i], tables[i].rows)
  }

  lemma {:induction false} AllFreeMovable(defs: seq<TableDef>, tables: seq<Table>)
    requires AllFree(defs, tables)
    ensures AllMovable(defs, tables)
  {
    forall i | 0 <= i < |defs| ensures Movable(defs[i], tables[i].rows) {
      FreeIsMovable(defs[i], tables[i].rows);
    }
  }

  ghost predicate AllMigrated(defs: seq<TableDef>, tables: seq<Table>) {
    |defs| == |tables| && forall i | 0 <= i < |defs| :: defs[i].active ==> Migrated(defs[i], tables[i])
  }

  // ------------------------------------------------------ what conservation comes to

  /** Rows kept in their places are kept. */
  lemma {:induction false} BagHas(def: TableDef, rows: map<bytes, Row>, k: bytes, row: Row)
    ensures (k, row) in Bag(def, rows) <==> exists j | j in rows :: rows[j] == row && Place(def, j, row) == k
    decreases |rows|
  {
    if rows != map[] {
      var j := PickKey(rows);
      BagHas(def, rows - {j}, k, row);
    }
  }

  /**
   * Once migrated, a table holds exactly the rows it started with, each at the place its own primary key gives
   * (rows with nothing to refold where they were), and no row was lost, duplicated or overwritten.
   */
  lemma {:induction false} MigratedExactly(def: TableDef, before: map<bytes, Row>, now: map<bytes, Row>, k: bytes,
                                           row: Row)
    requires Bag(def, now) == Bag(def, before) && AtHome(def, now, now.Keys)
    ensures k in now && now[k] == row <==> exists j | j in before :: before[j] == row && Place(def, j, row) == k
    ensures |now| == |before|
  {
    BagHas(def, now, k, row);
    BagHas(def, before, k, row);
    BagSize(def, now);
    BagSize(def, before);
  }

  lemma {:induction false} TwiceInBag(def: TableDef, rows: map<bytes, Row>, j: bytes, k: bytes)
    requires j in rows && k in rows && j != k && rows[j] == rows[k] && Place(def, j, rows[j]) == Place(def, k, rows[k])
    ensures Bag(def, rows)[(Place(def, j, rows[j]), rows[j])] >= 2
  {
    BagRemove(def, rows, j);
    BagRemove(def, rows - {j}, k);
  }

  lemma {:induction false} OnceAtHome(def: TableDef, rows: map<bytes, Row>, k: bytes, row: Row)
    requires AtHome(def, rows, rows.Keys)
    ensures Bag(def, rows)[(k, row)] <= 1
  {
    BagHas(def, rows, k, row);
    if k in rows {
      BagRemove(def, rows, k);
      BagHas(def, rows - {k}, k, row);
    }
  }

  /** Two rows with one place are never migrated: the migration cannot report success. */
  lemma {:induction false} MigratedMeansDistinct(def: TableDef, before: map<bytes, Row>, now: map<bytes, Row>, j: bytes,
                                                 k: bytes)
    requires Bag(def, now) == Bag(def, before) && AtHome(def, now, now.Keys) && j in before && k in before && j != k
    ensures Place(def, j, before[j]) != Place(def, k, before[k])
  {
    var to, at := Place(def, j, before[j]), Place(def, k, before[k]);
    MigratedExactly(def, before, now, to, before[j]);
    MigratedExactly(def, before, now, at, before[k]);
    assert to in now && now[to] == before[j] && at in now && now[at] == before[k];
    OnceAtHome(def, now, to, before[j]);
    if before[j] == before[k] && to == at { TwiceInBag(def, before, j, k); }
  }

  lemma {:induction false} BagSize(def: TableDef, rows: map<bytes, Row>)
    ensures |Bag(def, rows)| == |rows|
    decreases |rows|
  {
    if rows != map[] {
      BagSize(def, rows - {PickKey(rows)});
    }
  }

  lemma {:induction false} NothingElse(t: Table, dels: set<bytes>)
    ensures Flushed(t.rows, Plan(map[], {}, map[])) == t.rows
    ensures (t.index - dels) + Plan(map[], {}, map[]).entries == t.index - dels
  {
  }

  /** Deleting a batch of index keys leaves only keys after it, and fewer. */
  lemma {:induction false} BatchLeaves(index: map<bytes, bytes>, cursor: Option<bytes>, batch: seq<bytes>)
    requires IsBatch(BATCH, index.Keys, cursor, batch) && batch != [] && forall k | k in index :: After(cursor, k)
    ensures
      var rest := index - (set k | k in batch);
      && |rest| < |index|
      && (forall k | k in rest :: After(Some(batch[|batch| - 1]), k))
      && (|batch| < BATCH ==> rest == map[])
  {
    var rest := index - (set k | k in batch);
    assert batch[0] in batch;
    FewerKeys(index, rest, batch[0]);
    assert forall k | k in rest :: k in index && k !in batch;
  }

  lemma {:induction false} FewerKeys<V>(a: map<bytes, V>, b: map<bytes, V>, k: bytes)
    requires b.Keys <= a.Keys && k in a && k !in b
    ensures |b| < |a|
  {
    Subset(b.Keys, a.Keys - {k});
  }
}
