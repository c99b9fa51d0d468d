/** Batched scans over the keys of an ordered store. */
module Scan {
  import opened Wrappers
  import opened Bytes

  predicate After(cursor: Option<bytes>, k: bytes) {
    cursor.None? || Less(cursor.value, k)
  }

  /** Where a scan stands that has come to the last of these. */
  function LastOf(keys: seq<bytes>): Option<bytes> {
    if keys == [] then None else Some(keys[|keys| - 1])
  }

  /** The first `limit` keys after the cursor, in order. */
  ghost predicate IsBatch(limit: nat, keys: set<bytes>, cursor: Option<bytes>, batch: seq<bytes>) {
    && |batch| <= limit
    && (forall i, j | 0 <= i < j < |batch| :: Less(batch[i], batch[j]))
    && (forall k | k in batch :: k in keys && After(cursor, k))
    && (forall k | k in keys && After(cursor, k) && k !in batch ::
          |batch| == limit && (limit > 0 ==> Less(batch[limit - 1], k)))
  }

  method Least(keys: set<bytes>, cursor: Option<bytes>) returns (least: Option<bytes>)
    ensures least.None? ==> forall k | k in keys :: !After(cursor, k)
    ensures least.Some? ==> least.value in keys && After(cursor, least.value)
    ensures least.Some? ==> forall k | k in keys && After(cursor, k) :: AtMost(least.value, k)
  {
    least := None;
    var rest := keys;
    while rest != {}
      invariant rest <= keys
      invariant least.Some? ==> least.value in keys && After(cursor, least.value)
      invariant forall k | k in keys - rest && After(cursor, k) :: least.Some? && AtMost(least.value, k)
      decreases |rest|
    {
      var k :| k in rest;
      rest := rest - {k};
      if After(cursor, k) && (least.None? || Less(k, least.value)) {
        forall j | j in keys - rest && After(cursor, j) ensures AtMost(k, j) {
          if j != k && least.value != j { LessTransitive(k, least.value, j); }
        }
        least := Some(k);
      } else if least.Some? {
        LessTotal(k, least.value);
      }
    }
  }

  method ScanBatch(limit: nat, keys: set<bytes>, cursor: Option<bytes>) returns (batch: seq<bytes>)
    ensures IsBatch(limit, keys, cursor, batch)
  {
    batch := [];
    var at := cursor;
    while |batch| < limit
      invariant |batch| <= limit
      invariant at == if batch == [] then cursor else Some(batch[|batch| - 1])
      invariant forall i, j | 0 <= i < j < |batch| :: Less(batch[i], batch[j])
      invariant forall k | k in batch :: k in keys && After(cursor, k)
      invariant forall k | k in keys && After(cursor, k) && k !in batch :: After(at, k)
    {
      var next := Least(keys, at);
      if next.None? { break; }
      var k := next.value;
      Extend(keys, cursor, batch, k);
      batch := batch + [k];
      at := Some(k);
    }
  }

  lemma {:induction false} Extend(keys: set<bytes>, cursor: Option<bytes>, batch: seq<bytes>, k: bytes)
    requires forall i, j | 0 <= i < j < |batch| :: Less(batch[i], batch[j])
    requires forall x | x in batch :: x in keys && After(cursor, x)
    requires k in keys && After(if batch == [] then cursor else Some(batch[|batch| - 1]), k)
    requires forall x | x in keys && After(if batch == [] then cursor else Some(batch[|batch| - 1]), x) :: AtMost(k, x)
    requires forall x | x in keys && After(cursor, x) && x !in batch ::
               After(if batch == [] then cursor else Some(batch[|batch| - 1]), x)
    ensures forall i, j | 0 <= i < j < |batch + [k]| :: Less((batch + [k])[i], (batch + [k])[j])
    ensures forall x | x in batch + [k] :: x in keys && After(cursor, x)
    ensures forall x | x in keys && After(cursor, x) && x !in batch + [k] :: Less(k, x)
  {
    if batch != [] {
      var last := batch[|batch| - 1];
      assert last in batch;
      forall i | 0 <= i < |batch| ensures Less(batch[i], k) {
        if i < |batch| - 1 { LessTransitive(batch[i], last, k); }
      }
      if cursor.Some? { LessTransitive(cursor.value, last, k); }
    }
  }

  lemma {:induction false} NotEarlier(limit: nat, keys: set<bytes>, cursor: Option<bytes>, a: seq<bytes>, b: seq<bytes>,
                                      i: nat)
    requires IsBatch(limit, keys, cursor, a) && IsBatch(limit, keys, cursor, b) && |a| == |b| && i < |a|
             && a[..i] == b[..i]
    ensures AtMost(b[i], a[i])
  {
    assert a[i] in a;
    if a[i] in b {
      var m :| 0 <= m < |b| && b[m] == a[i];
      if m < i {
        assert a[..i][m] == b[..i][m];
        LessIrreflexive(a[i]);
      }
    } else if i < limit - 1 {
      LessTransitive(b[i], b[limit - 1], a[i]);
    }
  }

  /** There is only one batch of a length. */
  lemma {:induction false} BatchUnique(limit: nat, keys: set<bytes>, cursor: Option<bytes>, a: seq<bytes>,
                                       b: seq<bytes>, n: nat)
    requires IsBatch(limit, keys, cursor, a) && IsBatch(limit, keys, cursor, b) && |a| == |b| && n <= |a|
    ensures a[..n] == b[..n]
  {
    if n > 0 {
      BatchUnique(limit, keys, cursor, a, b, n - 1);
      NotEarlier(limit, keys, cursor, a, b, n - 1);
      NotEarlier(limit, keys, cursor, b, a, n - 1);
      if a[n - 1] != b[n - 1] { LessAsymmetric(a[n - 1], b[n - 1]); }
      assert a[..n] == a[..n - 1] + [a[n - 1]] && b[..n] == b[..n - 1] + [b[n - 1]];
    }
  }

  lemma {:induction false} LeastExists(keys: set<bytes>, cursor: Option<bytes>) returns (k: bytes)
    requires exists j | j in keys :: After(cursor, j)
    ensures k in keys && After(cursor, k) && forall j | j in keys && After(cursor, j) :: AtMost(k, j)
    decreases |keys|
  {
    k :| k in keys && After(cursor, k);
    var rest := keys - {k};
    if exists j | j in rest :: After(cursor, j) {
      var m := LeastExists(rest, cursor);
      LessTotal(m, k);
      if Less(m, k) {
        k := m;
      } else {
        forall j | j in rest && After(cursor, j) ensures AtMost(k, j) {
          if m != j { LessTransitive(k, m, j); }
        }
      }
    }
  }

  /** From every cursor there is a next batch. */
  lemma {:induction false} BatchExists(limit: nat, keys: set<bytes>, cursor: Option<bytes>) returns (batch: seq<bytes>)
    ensures IsBatch(limit, keys, cursor, batch)
  {
    if limit == 0 || !exists j | j in keys :: After(cursor, j) { return []; }
    var k := LeastExists(keys, cursor);
    var rest := BatchExists(limit - 1, keys, Some(k));
    batch := [k] + rest;
    forall i, j | 0 <= i < j < |batch| ensures Less(batch[i], batch[j]) {
      assert batch[j] == rest[j - 1] && batch[j] in rest;
    }
    forall j | j in batch ensures j in keys && After(cursor, j) {
      if j != k && cursor.Some? { LessTransitive(cursor.value, k, j); }
    }
  }

  /** Keys not after the batch's end were before the cursor or are in the batch. */
  lemma {:induction false} BatchCovers(limit: nat, keys: set<bytes>, cursor: Option<bytes>, batch: seq<bytes>, k: bytes)
    requires IsBatch(limit, keys, cursor, batch) && batch != [] && k in keys && AtMost(k, batch[|batch| - 1])
    ensures !After(cursor, k) || k in batch
  {
    if After(cursor, k) && k !in batch {
      LessIrreflexive(k);
      LessAsymmetric(batch[|batch| - 1], k);
    }
  }

  lemma {:induction false} BatchDistinct(limit: nat, keys: set<bytes>, cursor: Option<bytes>, batch: seq<bytes>)
    requires IsBatch(limit, keys, cursor, batch)
    ensures forall i, j | 0 <= i < j < |batch| :: batch[i] != batch[j]
  {
    forall i, j | 0 <= i < j < |batch| ensures batch[i] != batch[j] {
      LessAsymmetric(batch[i], batch[j]);
    }
  }

  lemma {:induction false} Subset(a: set<bytes>, b: set<bytes>)
    requires a <= b
    ensures |a| <= |b|
  {
    if a != {} {
      var x :| x in a;
      Subset(a - {x}, b - {x});
    }
  }

  /** The keys a cursor has not passed. */
  ghost function Ahead(keys: set<bytes>, cursor: Option<bytes>): set<bytes> {
    set k | k in keys && After(cursor, k)
  }

  /** A batch moves the cursor past at least one key. */
  lemma {:induction false} CursorPasses(limit: nat, keys: set<bytes>, cursor: Option<bytes>, batch: seq<bytes>)
    requires IsBatch(limit, keys, cursor, batch) && batch != []
    ensures |Ahead(keys, Some(batch[|batch| - 1]))| < |Ahead(keys, cursor)|
  {
    var end := batch[|batch| - 1];
    assert end in batch && end in Ahead(keys, cursor);
    LessIrreflexive(end);
    forall k | k in Ahead(keys, Some(end)) ensures k in Ahead(keys, cursor) - {end} {
      if cursor.Some? { LessTransitive(cursor.value, end, k); }
    }
    Subset(Ahead(keys, Some(end)), Ahead(keys, cursor) - {end});
  }
}
