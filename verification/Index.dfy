/** Secondary indexes: entry keys, byte intervals and lookups (crates/elyra-engine/src/index.rs). */
module Index {
  import opened Wrappers
  import opened Bytes
  import opened Values
  import opened KeyEnc
  import opened Store

  const BATCH := 4096

  /** `prefix enc(tuple) 00 [clustered key]`; a unique index leaves the clustered key out. */
  function EntryKey(prefix: bytes, encoded: bytes, clustered: bytes, unique: bool): bytes {
    prefix + encoded + [0] + (if unique then [] else clustered)
  }

  /** Two rows collide on a unique index exactly when their tuples are equal under the index's collations. */
  lemma {:induction false} UniqueEntryCollision(prefix: bytes, a: seq<Value>, b: seq<Value>, ca: bytes, cb: bytes,
                                                colls: seq<Collation>, fold: Fold)
    requires SameKinds(a, b)
    ensures Key(a, colls, fold).Some? && Key(b, colls, fold).Some?
    ensures EntryKey(prefix, Key(a, colls, fold).value, ca, true) ==
            EntryKey(prefix, Key(b, colls, fold).value, cb, true)
       <==> TupleEqual(a, b, colls, fold)
  {
    KeyOrder(a, b, colls, fold);
    var x, y := Key(a, colls, fold).value, Key(b, colls, fold).value;
    if x != y {
      SameHead(prefix, x, y);
      DivergeDecides(prefix + x, prefix + y, [0], [0]);
      assert EntryKey(prefix, x, ca, true) == prefix + x + [0] && EntryKey(prefix, y, cb, true) == prefix + y + [0];
    }
  }

  /**
   * The entries of an index that is not unique lie in the order of their tuples and, of equal tuples, in that of the
   * rows; two are one only if they are of one row.
   */
  lemma {:induction false} EntryOrder(prefix: bytes, a: seq<Value>, b: seq<Value>, ca: bytes, cb: bytes,
                                      colls: seq<Collation>, fold: Fold)
    requires SameKinds(a, b)
    ensures Key(a, colls, fold).Some? && Key(b, colls, fold).Some?
    ensures
      var x := EntryKey(prefix, Key(a, colls, fold).value, ca, false);
      var y := EntryKey(prefix, Key(b, colls, fold).value, cb, false);
      && (x == y <==> TupleEqual(a, b, colls, fold) && ca == cb)
      && (Less(x, y) <==> TupleLess(a, b, colls, fold) || (TupleEqual(a, b, colls, fold) && Less(ca, cb)))
  {
    KeyOrder(a, b, colls, fold);
    var x, y := Key(a, colls, fold).value, Key(b, colls, fold).value;
    SameHead(prefix, x, y);
    EntryBytes(prefix, x, ca);
    EntryBytes(prefix, y, cb);
    if x != y {
      DivergeDecides(prefix + x, prefix + y, [0] + ca, [0] + cb);
    } else {
      SameHead(prefix + x + [0], ca, cb);
      LessIrreflexive(x);
    }
  }

  lemma {:induction false} EntryBytes(prefix: bytes, x: bytes, c: bytes)
    ensures EntryKey(prefix, x, c, false) == prefix + x + ([0] + c) == prefix + x + [0] + c
  {
  }

  // -------------------------------------------------------------- upper bounds

  function UpperBound(p: bytes): bytes {
    if p == [] then []
    else if p[|p| - 1] < 255 then p[..|p| - 1] + [p[|p| - 1] + 1]
    else UpperBound(p[..|p| - 1])
  }

  /** Drops trailing FF bytes and increments the last byte that is left, in the buffer itself. */
  method PrefixUpperBound(prefix: bytes) returns (end: bytes)
    ensures end == UpperBound(prefix)
  {
    end := prefix;
    while end != []
      invariant UpperBound(end) == UpperBound(prefix)
      decreases |end|
    {
      var last := end[|end| - 1];
      if last < 255 {
        end := end[|end| - 1 := last + 1];
        return;
      }
      end := end[..|end| - 1];
    }
  }

  ghost predicate SomeBelowFF(p: bytes) {
    exists i | 0 <= i < |p| :: p[i] < 255
  }

  /** `k` is below every key above `p`'s block: it sorts before `p`, or starts with it. */
  ghost predicate BeforeOrUnder(k: bytes, p: bytes) {
    Less(k, p) || p <= k
  }

  /** How `q + [b]` compares with a key that does not start with `q`. */
  lemma {:induction false} OutsidePrefix(k: bytes, q: bytes, s: bytes)
    requires !(q <= k)
    ensures Less(k, q + s) <==> Less(k, q)
    ensures !(q + s <= k)
  {
    if k <= q {
      PrefixLess(k, q);
      assert k < q + s;
      PrefixLess(k, q + s);
    } else {
      DivergeDecides(k, q, [], s);
      assert k + [] == k;
    }
    assert q <= q + s;
  }

  lemma {:induction false} InsidePrefix(k: bytes, q: bytes, b: byte)
    requires q <= k
    ensures Less(k, q + [b]) <==> |k| == |q| || k[|q|] < b
    ensures q + [b] <= k <==> |k| > |q| && k[|q|] == b
  {
    var r := k[|q|..];
    assert k == q + r;
    CommonPrefix(q, r, [b]);
    assert [b][1..] == [];
    assert r != [] ==> k[|q|] == r[0];
  }

  lemma {:induction false} UpperBoundExact(p: bytes, k: bytes)
    requires SomeBelowFF(p)
    ensures Less(k, UpperBound(p)) <==> BeforeOrUnder(k, p)
  {
    var q, b := p[..|p| - 1], p[|p| - 1];
    assert p == q + [b];
    LessIrreflexive(k);
    if b == 255 {
      var i :| 0 <= i < |p| && p[i] < 255;
      assert q[i] < 255;
      UpperBoundExact(q, k);
    }
    if q <= k {
      InsidePrefix(k, q, b);
      if b < 255 {
        InsidePrefix(k, q, b + 1);
      }
    } else {
      OutsidePrefix(k, q, [b]);
      if b < 255 {
        OutsidePrefix(k, q, [b + 1]);
      }
    }
  }

  lemma {:induction false} AllFFBound(p: bytes)
    requires !SomeBelowFF(p)
    ensures UpperBound(p) == []
  {
    if p != [] {
      assert forall i | 0 <= i < |p| - 1 :: p[..|p| - 1][i] == p[i];
      AllFFBound(p[..|p| - 1]);
    }
  }

  /** The bound is the least key above the prefix's block exactly when some byte can be incremented. */
  lemma {:induction false} UpperBoundExactIff(p: bytes)
    ensures SomeBelowFF(p) <==> forall k :: Less(k, UpperBound(p)) <==> BeforeOrUnder(k, p)
  {
    if SomeBelowFF(p) {
      forall k ensures Less(k, UpperBound(p)) <==> BeforeOrUnder(k, p) {
        UpperBoundExact(p, k);
      }
    } else {
      AllFFBound(p);
      assert BeforeOrUnder(p, p) && !Less(p, UpperBound(p));
    }
  }

  // ------------------------------------------------------------- byte intervals

  /** A range bound: the value and whether it is included. */
  type Bound = Option<(Value, bool)>

  /** A bound with its value encoded. */
  type Point = Option<(bytes, bool)>

  function Encoded(b: Bound, coll: Collation, fold: Fold): Option<Point> {
    match b
    case None => Some(None)
    case Some((v, included)) =>
      var c :- Component(v, coll, fold);
      Some(Some((c, included)))
  }

  function StartOf(equal: bytes, lo: Point): bytes {
    match lo
    case None => equal
    case Some((c, included)) => if included then equal + c else UpperBound(equal + c)
  }

  function EndOf(equal: bytes, hi: Point): bytes {
    match hi
    case None => UpperBound(equal)
    case Some((c, included)) => if included then UpperBound(equal + c) else equal + c
  }

  /** The interval of `prefix_range_scan_bounds`: outer `None` is an encoding error, inner `None` an empty range. */
  function ScanBounds(prefix: bytes, colls: seq<Collation>, fold: Fold, vals: seq<Value>, lo: Bound, hi: Bound)
    : Option<Option<(bytes, bytes)>>
  {
    var key :- Key(vals, colls, fold);
    var coll := CollationAt(colls, |vals|);
    var low :- Encoded(lo, coll, fold);
    var high :- Encoded(hi, coll, fold);
    var start, end := StartOf(prefix + key, low), EndOf(prefix + key, high);
    Some(if AtMost(end, start) then None else Some((start, end)))
  }

  method PrefixRangeScanBounds(prefix: bytes, colls: seq<Collation>, fold: Fold, vals: seq<Value>, lo: Bound, hi: Bound)
    returns (r: Option<Option<(bytes, bytes)>>)
    ensures r == ScanBounds(prefix, colls, fold, vals, lo, hi)
  {
    var key := EncodeKeyColl(vals, colls, fold);
    if key.None? { return None; }
    var equal := prefix + key.value;
    var coll := CollationAt(colls, |vals|);
    var start, end := equal, [];
    if lo.Some? {
      var c := Component(lo.value.0, coll, fold);
      if c.None? { return None; }
      start := equal + c.value;
      if !lo.value.1 {
        start := PrefixUpperBound(start);
      }
    }
    if hi.Some? {
      var c := Component(hi.value.0, coll, fold);
      if c.None? { return None; }
      end := equal + c.value;
      if hi.value.1 {
        end := PrefixUpperBound(end);
      }
    } else {
      end := PrefixUpperBound(equal);
    }
    if AtMost(end, start) { return Some(None); }
    return Some(Some((start, end)));
  }

  ghost predicate AboveLow(v: Value, lo: Bound, coll: Collation, fold: Fold)
    requires lo.Some? ==> SameKind(v, lo.value.0)
  {
    lo.Some? ==> !SqlLess(v, lo.value.0, coll, fold) && (SqlEqual(v, lo.value.0, coll, fold) ==> lo.value.1)
  }

  ghost predicate BelowHigh(v: Value, hi: Bound, coll: Collation, fold: Fold)
    requires hi.Some? ==> SameKind(v, hi.value.0)
  {
    hi.Some? ==> SqlLess(v, hi.value.0, coll, fold) || (hi.value.1 && SqlEqual(v, hi.value.0, coll, fold))
  }

  /** The tuple and the bounds have the column types the index was built with. */
  ghost predicate Typed(tuple: seq<Value>, vals: seq<Value>, lo: Bound, hi: Bound) {
    && |vals| < |tuple| && SameKinds(tuple[..|vals|], vals)
    && (lo.Some? ==> SameKind(tuple[|vals|], lo.value.0))
    && (hi.Some? ==> SameKind(tuple[|vals|], hi.value.0))
    && SameKinds(tuple, tuple)
  }

  /** The row qualifies: leading columns equal, next column within bounds. */
  ghost predicate Qualifies(tuple: seq<Value>, colls: seq<Collation>, fold: Fold, vals: seq<Value>, lo: Bound,
                            hi: Bound)
    requires Typed(tuple, vals, lo, hi)
  {
    var coll := CollationAt(colls, |vals|);
    && TupleEqual(tuple[..|vals|], vals, colls, fold)
    && AboveLow(tuple[|vals|], lo, coll, fold)
    && BelowHigh(tuple[|vals|], hi, coll, fold)
  }

  lemma {:induction false} NotLessIsAtMost(a: bytes, b: bytes)
    ensures AtMost(a, b) <==> !Less(b, a)
  {
    LessTotal(a, b);
    LessIrreflexive(a);
    if Less(a, b) {
      LessAsymmetric(a, b);
    }
  }

  /** A key that starts with `e + x` against the point `e + y`, for components `x` and `y`. */
  lemma {:induction false} PointSide(k: bytes, e: bytes, x: bytes, y: bytes)
    requires e + x <= k && (x == y || Diverge(x, y)) && SomeBelowFF(e)
    ensures Less(k, e + y) <==> Less(x, y)
    ensures Less(k, UpperBound(e + y)) <==> Less(x, y) || x == y
    ensures e <= k && Less(k, UpperBound(e)) && !Less(k, e)
  {
    var rest := k[|e + x|..];
    assert k == e + x + rest;
    BelowFFExtends(e, y);
    UpperBoundExact(e + y, k);
    UpperBoundExact(e, k);
    NotLessIsAtMost(e, k);
    assert e <= k;
    if e < k { PrefixLess(e, k); }
    if x == y {
      LessIrreflexive(x);
      if e + y < k { PrefixLess(e + y, k); }
      NotLessIsAtMost(e + y, k);
    } else {
      SameHead(e, x, y);
      DivergeDecides(e + x, e + y, rest, []);
      assert e + y + [] == e + y;
    }
  }

  lemma {:induction false} BelowFFExtends(p: bytes, s: bytes)
    requires SomeBelowFF(p)
    ensures SomeBelowFF(p + s)
  {
    var i :| 0 <= i < |p| && p[i] < 255;
    assert (p + s)[i] == p[i];
  }

  /** A key outside the block of `e` lies on one side of every point of the block. */
  lemma {:induction false} OffSide(k: bytes, e: bytes, y: bytes)
    requires !(e <= k) && SomeBelowFF(e)
    ensures Less(k, e + y) <==> Less(k, e)
    ensures Less(k, UpperBound(e + y)) <==> Less(k, e)
  {
    BelowFFExtends(e, y);
    UpperBoundExact(e + y, k);
    OutsidePrefix(k, e, y);
  }

  lemma {:induction false} PrefixThrough(p: bytes, a: bytes, b: bytes, tail: bytes)
    requires a <= b
    ensures p + a <= p + b + tail
  {
    assert b == a + b[|a|..];
    assert p + b + tail == (p + a) + (b[|a|..] + tail);
  }

  lemma {:induction false} KeySnoc(vals: seq<Value>, colls: seq<Collation>, fold: Fold, n: nat)
    requires n < |vals| && Key(vals[..n + 1], colls, fold).Some?
    ensures Key(vals[..n], colls, fold).Some? && Component(vals[n], CollationAt(colls, n), fold).Some?
    ensures Key(vals[..n + 1], colls, fold).value
         == Key(vals[..n], colls, fold).value + Component(vals[n], CollationAt(colls, n), fold).value
  {
    var head := vals[..n + 1];
    assert head[..n] == vals[..n] && head[n] == vals[n];
  }

  /** An entry's key starts with the prefix, the leading columns and the next column. */
  lemma {:induction false} EntrySplit(prefix: bytes, tuple: seq<Value>, tail: bytes, colls: seq<Collation>, fold: Fold,
                                      n: nat)
    requires n < |tuple| && SameKinds(tuple, tuple)
    ensures Key(tuple, colls, fold).Some? && Key(tuple[..n], colls, fold).Some?
    ensures Component(tuple[n], CollationAt(colls, n), fold).Some?
    ensures prefix + Key(tuple[..n], colls, fold).value <= prefix + Key(tuple, colls, fold).value + tail
    ensures prefix + Key(tuple[..n], colls, fold).value + Component(tuple[n], CollationAt(colls, n), fold).value
         <= prefix + Key(tuple, colls, fold).value + tail
  {
    KeyOrder(tuple, tuple, colls, fold);
    KeyPrefix(tuple, n + 1, colls, fold);
    KeySnoc(tuple, colls, fold, n);
    var lead, x := Key(tuple[..n], colls, fold).value, Component(tuple[n], CollationAt(colls, n), fold).value;
    Through(prefix, lead, x, Key(tuple, colls, fold).value, tail);
  }

  lemma {:induction false} Through(p: bytes, a: bytes, x: bytes, b: bytes, tail: bytes)
    requires a + x <= b
    ensures p + a <= p + b + tail && p + a + x <= p + b + tail
  {
    PrefixThrough(p, a + x, b, tail);
    assert p + (a + x) == p + a + x;
  }

  /** Within the prefix's block, the interval holds the keys whose next component is within the points. */
  lemma {:induction false} OnBlock(k: bytes, e: bytes, x: bytes, lo: Point, hi: Point)
    requires e + x <= k && SomeBelowFF(e)
    requires lo.Some? ==> x == lo.value.0 || Diverge(x, lo.value.0)
    requires hi.Some? ==> x == hi.value.0 || Diverge(x, hi.value.0)
    ensures AtMost(StartOf(e, lo), k) <==> (lo.Some? ==> !Less(x, lo.value.0) && (x == lo.value.0 ==> lo.value.1))
    ensures Less(k, EndOf(e, hi)) <==> (hi.Some? ==> Less(x, hi.value.0) || (hi.value.1 && x == hi.value.0))
  {
    NotLessIsAtMost(StartOf(e, lo), k);
    LessIrreflexive(x);
    PointSide(k, e, x, if lo.Some? then lo.value.0 else x);
    PointSide(k, e, x, if hi.Some? then hi.value.0 else x);
  }

  /** Outside the prefix's block, no key is in the interval. */
  lemma {:induction false} OffBlock(k: bytes, e: bytes, lo: Point, hi: Point)
    requires !(e <= k) && SomeBelowFF(e)
    ensures !(AtMost(StartOf(e, lo), k) && Less(k, EndOf(e, hi)))
  {
    NotLessIsAtMost(StartOf(e, lo), k);
    OffSide(k, e, if lo.Some? then lo.value.0 else []);
    OffSide(k, e, if hi.Some? then hi.value.0 else []);
    UpperBoundExact(e, k);
  }

  /** An entry lies in the block of the tuples that agree with `vals`, or leaves it. */
  lemma {:induction false} EntryBlock(prefix: bytes, colls: seq<Collation>, fold: Fold, vals: seq<Value>,
                                      tuple: seq<Value>, tail: bytes)
    requires |vals| < |tuple| && SameKinds(tuple[..|vals|], vals) && SameKinds(tuple, tuple)
    ensures Key(vals, colls, fold).Some? && Key(tuple, colls, fold).Some?
    ensures Component(tuple[|vals|], CollationAt(colls, |vals|), fold).Some?
    ensures
      var k := prefix + Key(tuple, colls, fold).value + tail;
      var e := prefix + Key(vals, colls, fold).value;
      if TupleEqual(tuple[..|vals|], vals, colls, fold)
      then e + Component(tuple[|vals|], CollationAt(colls, |vals|), fold).value <= k
      else Diverge(k, e)
  {
    var n := |vals|;
    KeyOrder(tuple[..n], vals, colls, fold);
    EntrySplit(prefix, tuple, tail, colls, fold, n);
    var k := prefix + Key(tuple, colls, fold).value + tail;
    var lead, key := Key(tuple[..n], colls, fold).value, Key(vals, colls, fold).value;
    if lead != key {
      LeadingDiffers(prefix, lead, key, k);
    }
  }

  /**
   * Exact index ranges: an index entry's key lies in the half-open interval exactly when its leading columns
   * equal the prefix values and its next column is within the bounds.
   */
  lemma {:induction false} ScanBoundsExact(prefix: bytes, colls: seq<Collation>, fold: Fold, vals: seq<Value>,
                                           lo: Bound, hi: Bound,
                                           tuple: seq<Value>, tail: bytes)
    requires SomeBelowFF(prefix) && Typed(tuple, vals, lo, hi)
    ensures ScanBounds(prefix, colls, fold, vals, lo, hi).Some? && Key(tuple, colls, fold).Some?
    ensures
      var k := prefix + Key(tuple, colls, fold).value + tail;
      var r := ScanBounds(prefix, colls, fold, vals, lo, hi).value;
      Qualifies(tuple, colls, fold, vals, lo, hi) <==> r.Some? && Between(r.value.0, r.value.1, k)
  {
    var n := |vals|;
    var coll := CollationAt(colls, n);
    EntryBlock(prefix, colls, fold, vals, tuple, tail);
    BoundOrder(tuple[n], lo, coll, fold);
    BoundOrder(tuple[n], hi, coll, fold);
    var k := prefix + Key(tuple, colls, fold).value + tail;
    var e := prefix + Key(vals, colls, fold).value;
    var low, high := Encoded(lo, coll, fold).value, Encoded(hi, coll, fold).value;
    BelowFFExtends(prefix, Key(vals, colls, fold).value);
    if AtMost(EndOf(e, high), StartOf(e, low)) {
      EmptyInterval(StartOf(e, low), EndOf(e, high), k);
    }
    if TupleEqual(tuple[..n], vals, colls, fold) {
      OnBlock(k, e, Component(tuple[n], coll, fold).value, low, high);
    } else {
      OffBlock(k, e, low, high);
    }
  }

  /** Where the end does not exceed the start there is nothing between them. */
  lemma {:induction false} EmptyInterval(start: bytes, end: bytes, k: bytes)
    requires AtMost(end, start)
    ensures !Between(start, end, k)
  {
    if Between(start, end, k) {
      if start != k { LessTransitive(start, k, end); }
      LessAsymmetric(start, end);
    }
  }

  /** A value against a bound is its encoding against the bound's. */
  lemma {:induction false} BoundOrder(v: Value, b: Bound, coll: Collation, fold: Fold)
    requires SameKind(v, v) && (b.Some? ==> SameKind(v, b.value.0))
    ensures Component(v, coll, fold).Some? && Encoded(b, coll, fold).Some?
    ensures
      var x, y := Component(v, coll, fold).value, Encoded(b, coll, fold).value;
      && (b.None? <==> y.None?)
      && (b.Some? ==>
            && y.value.1 == b.value.1
            && (x == y.value.0 <==> SqlEqual(v, b.value.0, coll, fold))
            && (x != y.value.0 ==> Diverge(x, y.value.0))
            && (Less(x, y.value.0) <==> SqlLess(v, b.value.0, coll, fold)))
  {
    ComponentOrder(v, v, coll, fold);
    if b.Some? {
      ComponentOrder(v, b.value.0, coll, fold);
    }
  }

  lemma {:induction false} LeadingDiffers(prefix: bytes, a: bytes, b: bytes, k: bytes)
    requires Diverge(a, b) && prefix + a <= k
    ensures Diverge(k, prefix + b)
  {
    SameHead(prefix, a, b);
    DivergeDecides(prefix + a, prefix + b, k[|prefix + a|..], []);
    assert k == prefix + a + k[|prefix + a|..];
    assert prefix + b + [] == prefix + b;
  }

  // ------------------------------------------------- the 01-suffix form on one column

  function SuffixStart(prefix: bytes, lo: Point): bytes {
    match lo
    case None => prefix
    case Some((c, included)) => prefix + c + (if included then [] else [1])
  }

  function SuffixEnd(prefix: bytes, hi: Point): bytes {
    match hi
    case None => UpperBound(prefix)
    case Some((c, included)) => prefix + c + (if included then [1] else [])
  }

  lemma {:induction false} SuffixSide(prefix: bytes, x: bytes, tail: bytes, c: bytes)
    requires (x == c || Diverge(x, c)) && SomeBelowFF(prefix)
    ensures
      var k := prefix + x + ([0] + tail);
      Less(k, prefix + c + [1]) <==> Less(k, UpperBound(prefix + c))
  {
    var k := prefix + x + ([0] + tail);
    PointSide(k, prefix, x, c);
    if x == c {
      CommonPrefix(prefix + c, [0] + tail, [1]);
    } else {
      SameHead(prefix, x, c);
      DivergeDecides(prefix + x, prefix + c, [0] + tail, [1]);
    }
  }

  /** On a one-column index, appending 01 to a bound selects the same entries as the prefix's upper bound. */
  lemma {:induction false} SuffixFormExact(prefix: bytes, x: bytes, tail: bytes, lo: Point, hi: Point)
    requires SomeBelowFF(prefix)
    requires lo.Some? ==> x == lo.value.0 || Diverge(x, lo.value.0)
    requires hi.Some? ==> x == hi.value.0 || Diverge(x, hi.value.0)
    ensures
      var k := prefix + x + ([0] + tail);
      Between(SuffixStart(prefix, lo), SuffixEnd(prefix, hi), k) <==> Between(StartOf(prefix, lo), EndOf(prefix, hi), k)
  {
    var k := prefix + x + ([0] + tail);
    NotLessIsAtMost(SuffixStart(prefix, lo), k);
    NotLessIsAtMost(StartOf(prefix, lo), k);
    if lo.Some? {
      SuffixSide(prefix, x, tail, lo.value.0);
      assert prefix + lo.value.0 + [] == prefix + lo.value.0;
    }
    if hi.Some? {
      SuffixSide(prefix, x, tail, hi.value.0);
      assert prefix + hi.value.0 + [] == prefix + hi.value.0;
    }
  }

  // ------------------------------------------------------------------ batched scans

  /** The keys are the data keys the entries hold, in their order. */
  ghost predicate Lists(keys: seq<bytes>, hits: seq<Entry>) {
    |keys| == |hits| && forall i | 0 <= i < |hits| :: keys[i] == hits[i].1
  }

  method PushDataKeys(keys: seq<bytes>, batch: seq<Entry>) returns (r: seq<bytes>)
    ensures |r| == |keys| + |batch| && keys <= r
    ensures forall i | 0 <= i < |batch| :: r[|keys| + i] == batch[i].1
  {
    r := keys;
    for i := 0 to |batch|
      invariant |r| == |keys| + i && keys <= r
      invariant forall j | 0 <= j < i :: r[|keys| + j] == batch[j].1
    {
      r := r + [batch[i].1];
    }
  }

  /** One turn of a batched loop: the first `n` hits are listed, and a batch of the rest is pushed. */
  lemma {:induction false} BatchTurn(keys: seq<bytes>, all: seq<Entry>, n: nat, batch: seq<Entry>, more: seq<bytes>)
    requires n <= |all| && Lists(keys, all[..n]) && batch == Take(all[n..], BATCH)
    requires |more| == |keys| + |batch| && keys <= more && forall i | 0 <= i < |batch| :: more[|keys| + i] == batch[i].1
    ensures n + |batch| <= |all| && Lists(more, all[..n + |batch|]) && all[n..][|batch|..] == all[n + |batch|..]
    ensures |batch| < BATCH ==> n + |batch| == |all|
  {
    forall i | 0 <= i < n + |batch| ensures more[i] == all[i].1 {
      if i < n {
        assert keys[i] == all[..n][i].1;
      } else {
        assert more[|keys| + (i - n)] == batch[i - n].1 && batch[i - n] == all[n..][i - n];
      }
    }
  }

  lemma {:induction false} RangeTurn(db: seq<Entry>, from: bytes, end: bytes, all: seq<Entry>, n: nat,
                                     batch: seq<Entry>)
    requires Ascending(db) && n <= |all| && RangeHits(db, from, end) == all[n..]
    requires batch == Take(all[n..], BATCH) && batch != []
    ensures RangeHits(db, batch[|batch| - 1].0 + [0], end) == all[n + |batch|..]
  {
    RangeAdvance(db, from, end, |batch|);
  }

  lemma {:induction false} PrefixTurn(db: seq<Entry>, prefix: bytes, cursor: Option<bytes>, all: seq<Entry>, n: nat,
                                      batch: seq<Entry>)
    requires Ascending(db) && n <= |all| && UnderHits(db, prefix, cursor) == all[n..]
    requires batch == Take(all[n..], BATCH) && batch != []
    ensures UnderHits(db, prefix, Some(batch[|batch| - 1].0)) == all[n + |batch|..]
  {
    CursorAdvance(db, prefix, cursor, |batch|);
  }

  /** The batched loop over `[start, end)` returns the data key of every entry in it once, in key order. */
  method RangeScan(db: seq<Entry>, start: bytes, end: bytes) returns (keys: seq<bytes>)
    requires Ascending(db)
    ensures Lists(keys, RangeHits(db, start, end))
  {
    keys := [];
    var from := start;
    ghost var all, n := RangeHits(db, start, end), 0;
    while true
      invariant n <= |all| && RangeHits(db, from, end) == all[n..] && Lists(keys, all[..n])
      decreases |all| - n
    {
      var batch := ScanRange(db, from, end, BATCH);
      var more := PushDataKeys(keys, batch);
      BatchTurn(keys, all, n, batch, more);
      keys := more;
      if batch == [] { break; }
      RangeTurn(db, from, end, all, n, batch);
      from := batch[|batch| - 1].0 + [0];
      n := n + |batch|;
      if |batch| < BATCH { break; }
    }
    assert all[..|all|] == all;
  }

  /** The batched loop over a prefix, moving a cursor. */
  method PrefixScan(db: seq<Entry>, prefix: bytes) returns (keys: seq<bytes>)
    requires Ascending(db)
    ensures Lists(keys, UnderHits(db, prefix, None))
  {
    keys := [];
    var cursor: Option<bytes> := None;
    ghost var all, n := UnderHits(db, prefix, None), 0;
    while true
      invariant n <= |all| && UnderHits(db, prefix, cursor) == all[n..] && Lists(keys, all[..n])
      decreases |all| - n
    {
      var batch := ScanBatch(db, prefix, cursor, BATCH);
      var more := PushDataKeys(keys, batch);
      BatchTurn(keys, all, n, batch, more);
      keys := more;
      if batch == [] { break; }
      PrefixTurn(db, prefix, cursor, all, n, batch);
      cursor := Some(batch[|batch| - 1].0);
      n := n + |batch|;
      if |batch| < BATCH { break; }
    }
    assert all[..|all|] == all;
  }

  // ------------------------------------------------------------------------ lookups

  /** What an index's keyspace holds: every key under the prefix is an entry of a typed tuple. */
  datatype Origin = Origin(tuple: seq<Value>, tail: bytes)

  ghost predicate Keyspace(db: seq<Entry>, prefix: bytes, colls: seq<Collation>, fold: Fold,
                           origins: map<bytes, Origin>) {
    forall e | e in db && prefix <= e.0 ::
      && e.0 in origins
      && var o := origins[e.0];
      && SameKinds(o.tuple, o.tuple) && Key(o.tuple, colls, fold).Some?
      && e.0 == prefix + Key(o.tuple, colls, fold).value + ([0] + o.tail)
  }

  /** The stored row at index key `k` qualifies. */
  ghost predicate Hit(k: bytes, prefix: bytes, colls: seq<Collation>, fold: Fold, origins: map<bytes, Origin>,
                      vals: seq<Value>, lo: Bound, hi: Bound)
  {
    && prefix <= k && k in origins
    && Typed(origins[k].tuple, vals, lo, hi)
    && Qualifies(origins[k].tuple, colls, fold, vals, lo, hi)
  }

  ghost predicate AllTyped(db: seq<Entry>, prefix: bytes, origins: map<bytes, Origin>, vals: seq<Value>, lo: Bound,
                           hi: Bound) {
    forall e | e in db && prefix <= e.0 :: e.0 in origins && Typed(origins[e.0].tuple, vals, lo, hi)
  }

  lemma {:induction false} IntervalHits(db: seq<Entry>, prefix: bytes, colls: seq<Collation>, fold: Fold,
                                        origins: map<bytes, Origin>,
                                        vals: seq<Value>, lo: Bound, hi: Bound, e: Entry)
    requires Keyspace(db, prefix, colls, fold, origins) && AllTyped(db, prefix, origins, vals, lo, hi)
    requires SomeBelowFF(prefix) && e in db && ScanBounds(prefix, colls, fold, vals, lo, hi).Some?
    ensures
      var r := ScanBounds(prefix, colls, fold, vals, lo, hi).value;
      Hit(e.0, prefix, colls, fold, origins, vals, lo, hi) <==> r.Some? && Between(r.value.0, r.value.1, e.0)
  {
    if prefix <= e.0 {
      ScanBoundsExact(prefix, colls, fold, vals, lo, hi, origins[e.0].tuple, [0] + origins[e.0].tail);
    } else {
      var key := Key(vals, colls, fold).value;
      var coll := CollationAt(colls, |vals|);
      BelowFFExtends(prefix, key);
      assert prefix <= prefix + key;
      OffBlock(e.0, prefix + key, Encoded(lo, coll, fold).value, Encoded(hi, coll, fold).value);
    }
  }

  /** The composite-index range lookup returns exactly the qualifying rows, each once, in index order. */
  method LookupPrefixRange(db: seq<Entry>, prefix: bytes, colls: seq<Collation>, fold: Fold, vals: seq<Value>,
                           lo: Bound, hi: Bound, ghost origins: map<bytes, Origin>) returns (r: Option<seq<bytes>>)
    requires Ascending(db) && SomeBelowFF(prefix)
    requires Keyspace(db, prefix, colls, fold, origins) && AllTyped(db, prefix, origins, vals, lo, hi)
    ensures r.None? <==> ScanBounds(prefix, colls, fold, vals, lo, hi).None?
    ensures r.Some? ==> Lists(r.value, Where(db, k => Hit(k, prefix, colls, fold, origins, vals, lo, hi)))
  {
    var bounds := PrefixRangeScanBounds(prefix, colls, fold, vals, lo, hi);
    if bounds.None? { return None; }
    forall e | e in db
      ensures Hit(e.0, prefix, colls, fold, origins, vals, lo, hi)
         <==> bounds.value.Some? && Between(bounds.value.value.0, bounds.value.value.1, e.0)
    {
      IntervalHits(db, prefix, colls, fold, origins, vals, lo, hi, e);
    }
    if bounds.value.None? {
      WhereNone(db, k => Hit(k, prefix, colls, fold, origins, vals, lo, hi));
      return Some([]);
    }
    var keys := RangeScan(db, bounds.value.value.0, bounds.value.value.1);
    WhereSame(db, k => Hit(k, prefix, colls, fold, origins, vals, lo, hi),
              k => Between(bounds.value.value.0, bounds.value.value.1, k));
    return Some(keys);
  }

  lemma {:induction false} SuffixHits(db: seq<Entry>, prefix: bytes, colls: seq<Collation>, fold: Fold,
                                      origins: map<bytes, Origin>,
                                      lo: Bound, hi: Bound, e: Entry)
    requires Keyspace(db, prefix, colls, fold, origins) && AllTyped(db, prefix, origins, [], lo, hi)
    requires SomeBelowFF(prefix) && e in db && prefix <= e.0 && |origins[e.0].tuple| == 1
    requires Encoded(lo, CollationAt(colls, 0), fold).Some? && Encoded(hi, CollationAt(colls, 0), fold).Some?
    ensures
      var low, high := Encoded(lo, CollationAt(colls, 0), fold).value, Encoded(hi, CollationAt(colls, 0), fold).value;
      Hit(e.0, prefix, colls, fold, origins, [], lo, hi) <==>
      Between(SuffixStart(prefix, low), SuffixEnd(prefix, high), e.0)
  {
    var o := origins[e.0];
    var coll := CollationAt(colls, 0);
    var low, high := Encoded(lo, coll, fold).value, Encoded(hi, coll, fold).value;
    IntervalHits(db, prefix, colls, fold, origins, [], lo, hi, e);
    BoundOrder(o.tuple[0], lo, coll, fold);
    BoundOrder(o.tuple[0], hi, coll, fold);
    var x := Component(o.tuple[0], coll, fold).value;
    assert o.tuple[..0] == [] && Key(o.tuple, colls, fold) == Some([] + x) && [] + x == x;
    assert prefix + [] == prefix;
    SuffixFormExact(prefix, x, o.tail, low, high);
    if AtMost(EndOf(prefix, high), StartOf(prefix, low)) {
      EmptyInterval(StartOf(prefix, low), EndOf(prefix, high), e.0);
    }
  }

  lemma {:induction false} SuffixMisses(prefix: bytes, low: Point, high: Point, k: bytes)
    requires SomeBelowFF(prefix) && !(prefix <= k)
    ensures !Between(SuffixStart(prefix, low), SuffixEnd(prefix, high), k)
  {
    NotLessIsAtMost(SuffixStart(prefix, low), k);
    UpperBoundExact(prefix, k);
    if low.Some? {
      var s := low.value.0 + (if low.value.1 then [] else [1]);
      assert SuffixStart(prefix, low) == prefix + s;
      OutsidePrefix(k, prefix, s);
    }
    if high.Some? {
      var s := high.value.0 + (if high.value.1 then [1] else []);
      assert SuffixEnd(prefix, high) == prefix + s;
      OutsidePrefix(k, prefix, s);
    }
  }

  /** The one-column range lookup, with its own form of the bounds, returns the same qualifying rows. */
  method LookupRange(db: seq<Entry>, prefix: bytes, colls: seq<Collation>, fold: Fold,
                     lo: Bound, hi: Bound, ghost origins: map<bytes, Origin>) returns (r: Option<seq<bytes>>)
    requires Ascending(db) && SomeBelowFF(prefix)
    requires Keyspace(db, prefix, colls, fold, origins) && AllTyped(db, prefix, origins, [], lo, hi)
    requires forall e | e in db && prefix <= e.0 :: |origins[e.0].tuple| == 1
    ensures r.Some? ==> Lists(r.value, Where(db, k => Hit(k, prefix, colls, fold, origins, [], lo, hi)))
    ensures r.None? <==>
            Encoded(lo, CollationAt(colls, 0), fold).None? || Encoded(hi, CollationAt(colls, 0), fold).None?
  {
    var low := Encoded(lo, CollationAt(colls, 0), fold);
    var high := Encoded(hi, CollationAt(colls, 0), fold);
    if low.None? || high.None? { return None; }
    var start, end := SuffixStart(prefix, low.value), SuffixEnd(prefix, high.value);
    forall e | e in db
      ensures Hit(e.0, prefix, colls, fold, origins, [], lo, hi) <==> Between(start, end, e.0)
    {
      if prefix <= e.0 {
        SuffixHits(db, prefix, colls, fold, origins, lo, hi, e);
      } else {
        SuffixMisses(prefix, low.value, high.value, e.0);
      }
    }
    var keys := RangeScan(db, start, end);
    WhereSame(db, k => Hit(k, prefix, colls, fold, origins, [], lo, hi), k => Between(start, end, k));
    return Some(keys);
  }

  /** Equality lookup: the data keys of exactly the rows whose whole tuple equals the probe. */
  method LookupEq(db: seq<Entry>, prefix: bytes, colls: seq<Collation>, fold: Fold, vals: seq<Value>,
                  ghost origins: map<bytes, Origin>) returns (r: Option<seq<bytes>>)
    requires Ascending(db) && Keyspace(db, prefix, colls, fold, origins)
    requires forall e | e in db && prefix <= e.0 :: SameKinds(origins[e.0].tuple, vals)
    ensures r.None? <==> Key(vals, colls, fold).None?
    ensures r.Some? ==> Lists(r.value, Where(db, k => prefix <= k && k in origins
      && SameKinds(origins[k].tuple, vals) && TupleEqual(origins[k].tuple, vals, colls, fold)))
  {
    var key := EncodeKeyColl(vals, colls, fold);
    if key.None? { return None; }
    var probe := prefix + key.value + [0];
    var keys := PrefixScan(db, probe);
    forall e | e in db
      ensures probe <= e.0 <==> prefix <= e.0 && TupleEqual(origins[e.0].tuple, vals, colls, fold)
    {
      if prefix <= e.0 {
        EqualityProbe(prefix, colls, fold, origins[e.0].tuple, vals, origins[e.0].tail);
      } else {
        OutsidePrefix(e.0, prefix, key.value + [0]);
        assert prefix + (key.value + [0]) == probe;
      }
    }
    WhereSame(db, k => Under(probe, None, k), k => prefix <= k && k in origins
      && SameKinds(origins[k].tuple, vals) && TupleEqual(origins[k].tuple, vals, colls, fold));
    return Some(keys);
  }

  lemma {:induction false} EqualityProbe(prefix: bytes, colls: seq<Collation>, fold: Fold, tuple: seq<Value>,
                                         vals: seq<Value>, tail: bytes)
    requires SameKinds(tuple, vals)
    ensures Key(tuple, colls, fold).Some? && Key(vals, colls, fold).Some?
    ensures prefix + Key(vals, colls, fold).value + [0] <= prefix + Key(tuple, colls, fold).value + ([0] + tail)
       <==> TupleEqual(tuple, vals, colls, fold)
  {
    KeyOrder(tuple, vals, colls, fold);
    ProbeBytes(prefix, Key(tuple, colls, fold).value, Key(vals, colls, fold).value, tail);
  }

  lemma {:induction false} ProbeBytes(prefix: bytes, x: bytes, y: bytes, tail: bytes)
    requires x == y || Diverge(x, y)
    ensures prefix + y + [0] <= prefix + x + ([0] + tail) <==> x == y
  {
    if x == y {
      assert prefix + x + ([0] + tail) == (prefix + y + [0]) + tail;
    } else {
      SameHead(prefix, x, y);
      DivergeDecides(prefix + x, prefix + y, [0] + tail, [0]);
    }
  }
}
