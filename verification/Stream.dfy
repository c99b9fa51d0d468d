/** A table scan pulled in batches (crates/elyra-engine/src/stream.rs). */
module Stream {
  import opened Wrappers
  import opened Bytes
  import opened Values
  import opened Store
  import opened Cexpr

  const SCAN_CHUNK := 1024

  type Outcome = Result<seq<Row>, Error>

  /** Stored rows are read by `decode`. */
  type Decode = bytes -> Result<Row, Error>

  // --------------------------------------------------------------------- projection

  function Picked(row: Row, projection: seq<nat>): (r: Row)
    ensures |r| == |projection| && forall k | 0 <= k < |r| :: r[k] == ColumnAt(row, projection[k])
  {
    if projection == [] then []
    else Picked(row, projection[..|projection| - 1]) + [ColumnAt(row, projection[|projection| - 1])]
  }

  predicate Distinct(projection: seq<nat>) {
    forall i, j | 0 <= i < j < |projection| :: projection[i] != projection[j]
  }

  /** Moves each value out of the row when no column is wanted twice, copies it otherwise: the same output row. */
  method Project(row: Row, projection: seq<nat>, unique: bool) returns (out: Row)
    requires unique ==> Distinct(projection)
    ensures out == Picked(row, projection)
  {
    out := [];
    var left := row;
    for k := 0 to |projection|
      invariant |left| == |row| && |out| == k
      invariant forall i | 0 <= i < k :: out[i] == ColumnAt(row, projection[i])
      invariant forall i | k <= i < |projection| :: ColumnAt(left, projection[i]) == ColumnAt(row, projection[i])
    {
      var i := projection[k];
      out := out + [ColumnAt(left, i)];
      if unique && i < |left| {
        left := left[i := Null];
      }
    }
  }

  // ------------------------------------------------------------------- what is left

  function Passes(env: Env, filter: Option<Expr>, row: Row): Result<bool, Error> {
    if filter.None? then Ok(true) else Matches(env, filter.value, row)
  }

  function Lowered(limit: Option<nat>): Option<nat> {
    match limit case None => None case Some(l) => if l > 0 then Some(l - 1) else Some(0)
  }

  /** The rest of the result: entries read in order, filtered, the first `offset` skipped, at most `limit` projected. */
  function Rest(env: Env, decode: Decode, filter: Option<Expr>, projection: seq<nat>, entries: seq<Entry>, offset: nat,
                limit: Option<nat>): Outcome {
    if entries == [] || limit == Some(0) then Ok([])
    else
      var row :- decode(entries[0].1);
      var pass :- Passes(env, filter, row);
      if !pass then Rest(env, decode, filter, projection, entries[1..], offset, limit)
      else if offset > 0 then Rest(env, decode, filter, projection, entries[1..], offset - 1, limit)
      else
        var more :- Rest(env, decode, filter, projection, entries[1..], 0, Lowered(limit));
        Ok([Picked(row, projection)] + more)
  }

  function Prepend(front: seq<Row>, r: Outcome): Outcome {
    if r.Err? then r else Ok(front + r.value)
  }

  lemma {:induction false} PrependTwice(a: seq<Row>, b: seq<Row>, r: Outcome)
    ensures Prepend(a, Prepend(b, r)) == Prepend(a + b, r)
  {
    if r.Ok? {
      assert a + (b + r.value) == (a + b) + r.value;
    }
  }

  lemma {:induction false} PrependNothing(r: Outcome)
    ensures Prepend([], r) == r
  {
    if r.Ok? {
      assert [] + r.value == r.value;
    }
  }

  // ------------------------------------------------- the same, as filter, drop and take

  /** The rows that pass, in key order. */
  function Passing(env: Env, decode: Decode, filter: Option<Expr>, entries: seq<Entry>): Outcome {
    if entries == [] then Ok([])
    else
      var row :- decode(entries[0].1);
      var pass :- Passes(env, filter, row);
      var more :- Passing(env, decode, filter, entries[1..]);
      Ok(if pass then [row] + more else more)
  }

  function Drop(rows: seq<Row>, n: nat): seq<Row> {
    if n <= |rows| then rows[n..] else []
  }

  function TakeAtMost(rows: seq<Row>, limit: Option<nat>): seq<Row> {
    if limit.Some? && limit.value <= |rows| then rows[..limit.value] else rows
  }

  function PickedAll(rows: seq<Row>, projection: seq<nat>): (r: seq<Row>)
    ensures |r| == |rows| && forall k | 0 <= k < |r| :: r[k] == Picked(rows[k], projection)
  {
    if rows == [] then [] else [Picked(rows[0], projection)] + PickedAll(rows[1..], projection)
  }

  function Selected(rows: seq<Row>, projection: seq<nat>, offset: nat, limit: Option<nat>): seq<Row> {
    PickedAll(TakeAtMost(Drop(rows, offset), limit), projection)
  }

  lemma {:induction false} SelectedSkip(row: Row, more: seq<Row>, projection: seq<nat>, offset: nat, limit: Option<nat>)
    requires offset > 0
    ensures Selected([row] + more, projection, offset, limit) == Selected(more, projection, offset - 1, limit)
  {
    assert Drop([row] + more, offset) == Drop(more, offset - 1);
  }

  lemma {:induction false} SelectedKeep(row: Row, more: seq<Row>, projection: seq<nat>, limit: Option<nat>)
    requires limit != Some(0)
    ensures Selected([row] + more, projection, 0, limit) == [Picked(row, projection)] +
                                                            Selected(more, projection, 0, Lowered(limit))
  {
    var rows := [row] + more;
    assert Drop(rows, 0) == rows && Drop(more, 0) == more;
    var t, u := TakeAtMost(rows, limit), TakeAtMost(more, Lowered(limit));
    assert t == [row] + u;
    assert t[1..] == u;
  }

  lemma {:induction false} SelectedNone(rows: seq<Row>, projection: seq<nat>, offset: nat)
    ensures Selected(rows, projection, offset, Some(0)) == []
  {
  }

  /** When every stored row decodes and the filter raises no error: project, of take, of drop, of filter. */
  lemma {:induction false} RestIsSelected(env: Env, decode: Decode, filter: Option<Expr>, projection: seq<nat>,
                                          entries: seq<Entry>, offset: nat,
                                          limit: Option<nat>)
    requires Passing(env, decode, filter, entries).Ok?
    ensures Rest(env, decode, filter, projection, entries, offset, limit) ==
            Ok(Selected(Passing(env, decode, filter, entries).value, projection, offset, limit))
  {
    if limit == Some(0) {
      SelectedNone(Passing(env, decode, filter, entries).value, projection, offset);
    } else if entries != [] {
      var row := decode(entries[0].1).value;
      var more := Passing(env, decode, filter, entries[1..]).value;
      if Passes(env, filter, row).value {
        if offset > 0 {
          RestIsSelected(env, decode, filter, projection, entries[1..], offset - 1, limit);
          SelectedSkip(row, more, projection, offset, limit);
        } else {
          RestIsSelected(env, decode, filter, projection, entries[1..], 0, Lowered(limit));
          SelectedKeep(row, more, projection, limit);
        }
      } else {
        RestIsSelected(env, decode, filter, projection, entries[1..], offset, limit);
      }
    }
  }

  // --------------------------------------------------------------------- the scan

  class Scan {
    const env: Env
    const decode: Decode
    const db: seq<Entry>
    const prefix: bytes
    const projection: seq<nat>
    const unique: bool
    const filter: Option<CExpr>
    ghost const wanted: Option<Expr>
    var cursor: Option<bytes>
    var offset: nat
    var limit: Option<nat>
    var done: bool

    ghost predicate Valid()
      reads this
    {
      && Ascending(db) && (unique ==> Distinct(projection))
      && filter == (if wanted.None? then None else Some(Compile(env, wanted.value)))
    }

    /** The entries not yet read. */
    ghost function Entries(): seq<Entry>
      reads this
    {
      if done then [] else UnderHits(db, prefix, cursor)
    }

    ghost function Left(): Outcome
      reads this
    {
      Rest(env, decode, wanted, projection, Entries(), offset, limit)
    }

    constructor (env: Env, decode: Decode, db: seq<Entry>, prefix: bytes, projection: seq<nat>, filter: Option<Expr>,
                 offset: nat, limit: Option<nat>)
      requires Ascending(db)
      ensures Valid() && this.env == env && this.decode == decode && this.projection == projection && wanted == filter
      ensures Left() == Rest(env, decode, filter, projection, UnderHits(db, prefix, None), offset, limit)
    {
      this.env, this.decode, this.db, this.prefix, this.projection := env, decode, db, prefix, projection;
      this.unique := forall i, j | 0 <= i < j < |projection| :: projection[i] != projection[j];
      this.filter := if filter.None? then None else Some(Compile(env, filter.value));
      this.wanted := filter;
      this.cursor, this.offset, this.limit, this.done := None, offset, limit, false;
    }

    /** One row: filtered, skipped by the offset, or projected and counted against the limit. */
    method TakeRow(e: Entry, ghost tail: seq<Entry>, rows: seq<Row>) returns (r: Outcome)
      requires Valid() && limit != Some(0)
      modifies this`offset, this`limit, this`done
      ensures Prepend(rows, Rest(env, decode, wanted, projection, [e] + tail, old(offset), old(limit))) ==
              if r.Err? then r else Prepend(r.value, Rest(env, decode, wanted, projection, tail, offset, limit))
      ensures r.Ok? ==> rows <= r.value && (done <==> old(done) || limit == Some(0))
    {
      RestStep(env, decode, wanted, projection, e, tail, offset, limit, rows);
      var row := decode(e.1);
      if row.Err? { return Err(row.error); }
      var pass := Test(row.value);
      if pass.Err? { return Err(pass.error); }
      if !pass.value { return Ok(rows); }
      if offset > 0 {
        offset := offset - 1;
        return Ok(rows);
      }
      var picked := Project(row.value, projection, unique);
      r := Ok(rows + [picked]);
      if limit.Some? {
        limit := Some(limit.value - 1);
        if limit == Some(0) { done := true; }
      }
    }

    /** One chunk: row by row, until the limit. */
    method ReadChunk(chunk: seq<Entry>, ghost after: seq<Entry>, out: seq<Row>) returns (r: Outcome)
      requires Valid() && limit != Some(0)
      modifies this`offset, this`limit, this`done
      ensures Prepend(out, Rest(env, decode, wanted, projection, chunk + after, old(offset), old(limit))) ==
              if r.Err? then r else Prepend(r.value, Rest(env, decode, wanted, projection, after, offset, limit))
      ensures r.Ok? ==> out <= r.value && (done <==> old(done) || limit == Some(0))
    {
      var rows, i := out, 0;
      ghost var goal := Prepend(out, Rest(env, decode, wanted, projection, chunk + after, offset, limit));
      assert chunk[0..] == chunk;
      while i < |chunk|
        invariant 0 <= i <= |chunk| && limit != Some(0) && out <= rows && done == old(done)
        invariant goal == Prepend(rows, Rest(env, decode, wanted, projection, chunk[i..] + after, offset, limit))
      {
        ghost var tail := chunk[i + 1..] + after;
        assert chunk[i..] + after == [chunk[i]] + tail;
        r := TakeRow(chunk[i], tail, rows);
        if r.Err? { return; }
        rows, i := r.value, i + 1;
        if limit == Some(0) { return; }
      }
      assert chunk[i..] + after == after;
      r := Ok(rows);
    }

    /** The compiled filter, which answers as the interpreter would. */
    method Test(row: Row) returns (r: Result<bool, Error>)
      requires Valid()
      ensures r == Passes(env, wanted, row)
    {
      if filter.None? { return Ok(true); }
      CompileKeepsMeaning(env, wanted.value, row);
      r := MatchesCompiled(env, filter.value, row);
    }

    /** The next chunk of the table; a short one is the last. */
    method Fetch() returns (chunk: seq<Entry>)
      requires Valid() && !done
      modifies this`cursor, this`done
      ensures old(Entries()) == chunk + Entries()
      ensures !done ==> |Entries()| < |old(Entries())|
    {
      ghost var hits := UnderHits(db, prefix, cursor);
      chunk := ScanBatch(db, prefix, cursor, SCAN_CHUNK);
      assert chunk + hits[|chunk|..] == hits;
      if |chunk| < SCAN_CHUNK { done := true; }
      if chunk != [] {
        CursorAdvance(db, prefix, cursor, |chunk|);
        cursor := Some(chunk[|chunk| - 1].0);
      }
    }

    /** The next rows: with what is left afterwards they are what was left before; none means there are no more. */
    method NextBatch(n: nat) returns (r: Outcome)
      requires Valid()
      modifies this`cursor, this`offset, this`limit, this`done
      ensures old(Left()) == if r.Err? then r else Prepend(r.value, Left())
      ensures r.Ok? ==> done || |r.value| >= n
      ensures done ==> Left() == Ok([])
    {
      var out: seq<Row> := [];
      PrependNothing(Left());
      while !done && |out| < n
        invariant old(Left()) == Prepend(out, Left())
        decreases if done then 0 else 1 + |Entries()|
      {
        if limit == Some(0) {
          done := true;
          break;
        }
        var chunk := Fetch();
        var rows := ReadChunk(chunk, Entries(), out);
        if rows.Err? { return rows; }
        out := rows.value;
      }
      r := Ok(out);
    }
  }

  /** What the next entry does to the rest. */
  lemma {:induction false} RestStep(env: Env, decode: Decode, filter: Option<Expr>, projection: seq<nat>, e: Entry,
                                    tail: seq<Entry>, offset: nat,
                                    limit: Option<nat>, rows: seq<Row>)
    requires limit != Some(0)
    ensures
      var all := Prepend(rows, Rest(env, decode, filter, projection, [e] + tail, offset, limit));
      var row := decode(e.1);
      if row.Err? then all == Err(row.error)
      else
        var pass := Passes(env, filter, row.value);
        if pass.Err? then all == Err(pass.error)
        else if !pass.value then all == Prepend(rows, Rest(env, decode, filter, projection, tail, offset, limit))
        else if offset > 0 then all == Prepend(rows, Rest(env, decode, filter, projection, tail, offset - 1, limit))
        else all == Prepend(rows + [Picked(row.value, projection)],
                            Rest(env, decode, filter, projection, tail, 0, Lowered(limit)))
  {
    assert ([e] + tail)[1..] == tail;
    var row := decode(e.1);
    if row.Ok? {
      PrependTwice(rows, [Picked(row.value, projection)],
                   Rest(env, decode, filter, projection, tail, 0, Lowered(limit)));
    }
  }

  /** Batches of any sizes, one after the other: together with what is left, the whole result. */
  method Pull(scan: Scan, sizes: seq<nat>) returns (r: Outcome)
    requires scan.Valid()
    modifies scan
    ensures old(scan.Left()) == if r.Err? then r else Prepend(r.value, scan.Left())
  {
    var out: seq<Row> := [];
    PrependNothing(scan.Left());
    for i := 0 to |sizes|
      invariant scan.Valid() && old(scan.Left()) == Prepend(out, scan.Left())
    {
      var batch := scan.NextBatch(sizes[i]);
      if batch.Err? { return batch; }
      PrependTwice(out, batch.value, scan.Left());
      out := out + batch.value;
    }
    r := Ok(out);
  }
}
