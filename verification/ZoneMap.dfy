/** Min/max data skipping (crates/elyra-engine/src/zonemap.rs). */
module ZoneMap {
  import opened Wrappers
  import opened Bytes
  import opened Values
  import opened Cpred
  import opened Comparing

  const CHUNK_ROWS := 8192

  /** A stored row under its clustered key. */
  type Stored = (bytes, Row)

  /** Per-column least and greatest number of a run of rows; `None` if the column holds no number there. */
  datatype Chunk = Chunk(start: bytes, min: seq<Option<real>>, max: seq<Option<real>>)

  datatype Map = Map(chunks: seq<Chunk>, upper: bytes)

  /** What the builder sees in a cell: integers and floats. */
  function Widens(cv: Conversions, v: Value): Option<real> {
    match v
    case Int(i) => Some(cv.ofInt(i))
    case Float(bits) => Some(cv.value(bits))
    case _ => None
  }

  function CellAt(cv: Conversions, row: Row, c: nat): Option<real> {
    if c < |row| then Widens(cv, row[c]) else None
  }

  /** `lo` and `hi` are the least and greatest numbers column `c` takes in `rows`. */
  ghost predicate Summary(cv: Conversions, rows: seq<Stored>, c: nat, lo: Option<real>, hi: Option<real>) {
    && (lo.Some? <==> hi.Some?)
    && (lo.None? ==> forall r | r in rows :: CellAt(cv, r.1, c).None?)
    && (lo.Some? ==>
          && (exists r | r in rows :: CellAt(cv, r.1, c) == lo)
          && (exists r | r in rows :: CellAt(cv, r.1, c) == hi)
          && forall r | r in rows && CellAt(cv, r.1, c).Some? :: lo.value <= CellAt(cv, r.1, c).value <= hi.value)
  }

  /** Non-numeric columns are never summarised. */
  ghost predicate Summarises(cv: Conversions, numeric: seq<bool>, rows: seq<Stored>, min: seq<Option<real>>,
                             max: seq<Option<real>>) {
    |min| == |max| == |numeric| && forall c | 0 <= c < |numeric| ::
      if numeric[c] then Summary(cv, rows, c, min[c], max[c]) else min[c].None? && max[c].None?
  }

  ghost predicate ChunkOf(cv: Conversions, numeric: seq<bool>, rows: seq<Stored>, ch: Chunk) {
    rows != [] && ch.start == rows[0].0 && Summarises(cv, numeric, rows, ch.min, ch.max)
  }

  ghost function Flat(groups: seq<seq<Stored>>): seq<Stored> {
    if groups == [] then [] else Flat(groups[..|groups| - 1]) + groups[|groups| - 1]
  }

  // ------------------------------------------------------------------ the builder

  lemma {:induction false} Widen(cv: Conversions, rows: seq<Stored>, row: Stored, c: nat, lo: Option<real>,
                                 hi: Option<real>)
    requires Summary(cv, rows, c, lo, hi)
    ensures
      match CellAt(cv, row.1, c)
      case None => Summary(cv, rows + [row], c, lo, hi)
      case Some(v) => Summary(cv, rows + [row], c, Some(if lo.None? || v < lo.value then v else lo.value),
                              Some(if hi.None? || v > hi.value then v else hi.value))
  {
    assert row in rows + [row];
    if lo.Some? {
      var a :| a in rows && CellAt(cv, a.1, c) == lo;
      var b :| b in rows && CellAt(cv, b.1, c) == hi;
      assert a in rows + [row] && b in rows + [row];
    }
    assert forall r | r in rows + [row] :: r in rows || r == row;
  }

  /** The per-column loop of one fed row. */
  method WidenAll(cv: Conversions, numeric: seq<bool>, ghost rows: seq<Stored>, row: Stored,
                  min: seq<Option<real>>, max: seq<Option<real>>) returns (lo: seq<Option<real>>, hi: seq<Option<real>>)
    requires Summarises(cv, numeric, rows, min, max)
    ensures Summarises(cv, numeric, rows + [row], lo, hi)
  {
    lo, hi := min, max;
    for c := 0 to |numeric|
      invariant |lo| == |hi| == |numeric|
      invariant forall d | 0 <= d < |numeric| ::
          if !numeric[d] then lo[d].None? && hi[d].None?
          else if d < c then Summary(cv, rows + [row], d, lo[d], hi[d])
          else Summary(cv, rows, d, lo[d], hi[d])
    {
      if numeric[c] {
        Widen(cv, rows, row, c, lo[c], hi[c]);
        var v := CellAt(cv, row.1, c);
        if v.Some? {
          lo := lo[c := Some(if lo[c].None? || v.value < lo[c].value then v.value else lo[c].value)];
          hi := hi[c := Some(if hi[c].None? || v.value > hi[c].value then v.value else hi[c].value)];
        }
      }
    }
  }

  /** Fed row by row from one ordered scan. */
  class Builder {
    const cv: Conversions
    const numeric: seq<bool>
    var chunks: seq<Chunk>
    var curMin: seq<Option<real>>
    var curMax: seq<Option<real>>
    var curStart: bytes
    var rowsInChunk: nat
    /** The rows behind each sealed chunk, and those of the chunk being built. */
    ghost var groups: seq<seq<Stored>>
    ghost var current: seq<Stored>

    ghost predicate Valid()
      reads this
    {
      && |chunks| == |groups| && rowsInChunk == |current| < CHUNK_ROWS
      && (forall i | 0 <= i < |chunks| :: ChunkOf(cv, numeric, groups[i], chunks[i]))
      && Summarises(cv, numeric, current, curMin, curMax)
      && (current != [] ==> curStart == current[0].0)
    }

    /** Every row fed so far, in order. */
    ghost function Fed(): seq<Stored>
      reads this
    {
      Flat(groups) + current
    }

    constructor (cv: Conversions, numeric: seq<bool>)
      ensures Valid() && Fed() == [] && this.cv == cv && this.numeric == numeric
    {
      this.cv, this.numeric := cv, numeric;
      chunks, rowsInChunk, curStart := [], 0, [];
      curMin := seq(|numeric|, _ => None);
      curMax := seq(|numeric|, _ => None);
      groups, current := [], [];
    }

    method Feed(key: bytes, row: Row)
      requires Valid()
      modifies this
      ensures Valid() && Fed() == old(Fed()) + [(key, row)]
    {
      if rowsInChunk == 0 {
        curStart := key;
      }
      ghost var before := current;
      var lo, hi := WidenAll(cv, numeric, before, (key, row), curMin, curMax);
      curMin, curMax := lo, hi;
      current := current + [(key, row)];
      assert Flat(groups) + (before + [(key, row)]) == Flat(groups) + before + [(key, row)];
      rowsInChunk := rowsInChunk + 1;
      if rowsInChunk >= CHUNK_ROWS {
        SealChunk();
      }
    }

    method SealChunk()
      requires |chunks| == |groups| && rowsInChunk == |current| <= CHUNK_ROWS
      requires forall i | 0 <= i < |chunks| :: ChunkOf(cv, numeric, groups[i], chunks[i])
      requires Summarises(cv, numeric, current, curMin, curMax) && (current != [] ==> curStart == current[0].0)
      modifies this
      ensures Valid() && Fed() == old(Fed()) && current == []
    {
      if rowsInChunk == 0 { return; }
      chunks := chunks + [Chunk(curStart, curMin, curMax)];
      groups := groups + [current];
      assert groups[..|groups| - 1] == old(groups);
      curStart, rowsInChunk, current := [], 0, [];
      curMin := seq(|numeric|, _ => None);
      curMax := seq(|numeric|, _ => None);
    }

    method Finish(upper: bytes) returns (z: Map)
      requires Valid()
      modifies this
      ensures Valid() && Fed() == old(Fed()) && current == [] && Flat(groups) == Fed()
      ensures z == Map(chunks, upper)
    {
      SealChunk();
      z := Map(chunks, upper);
    }
  }

  // ------------------------------------------------------------------ chunk skipping

  function ColumnOf(s: seq<Option<real>>, c: nat): Option<real> {
    if c < |s| then s[c] else None
  }

  predicate BoundSurvives(ch: Chunk, b: ColBound) {
    match (ColumnOf(ch.min, b.col), ColumnOf(ch.max, b.col))
    case (Some(min), Some(max)) =>
      (match b.op
       case Gt => max > b.rhs
       case Ge => max >= b.rhs
       case Lt => min < b.rhs
       case Le => min <= b.rhs
       case Eq => min <= b.rhs <= max
       case Ne => !(min == b.rhs && max == b.rhs))
    case _ => false
  }

  ghost predicate Relates(op: Op, x: real, y: real) {
    || (x == y && op in {Op.Eq, Op.Le, Op.Ge})
    || (x < y && op in {Op.Lt, Op.Le, Op.Ne})
    || (x > y && op in {Op.Gt, Op.Ge, Op.Ne})
  }

  /** A chunk is kept for a bound exactly if some number between its least and its greatest satisfies the bound. */
  lemma {:induction false} SurvivesIff(ch: Chunk, b: ColBound, min: real, max: real)
    requires ColumnOf(ch.min, b.col) == Some(min) && ColumnOf(ch.max, b.col) == Some(max) && min <= max
    ensures BoundSurvives(ch, b) <==> exists x :: min <= x <= max && Relates(b.op, x, b.rhs)
  {
    if BoundSurvives(ch, b) {
      var x := match b.op
        case Gt => max
        case Ge => max
        case Lt => min
        case Le => min
        case Eq => b.rhs
        case Ne => if min == b.rhs then max else min;
      assert min <= x <= max && Relates(b.op, x, b.rhs);
    }
  }

  predicate Survives(ch: Chunk, bounds: seq<ColBound>) {
    forall b | b in bounds :: BoundSurvives(ch, b)
  }

  /** A chunk with a row that satisfies the bound is never skipped for it. */
  lemma {:induction false} RowSurvives(cv: Conversions, numeric: seq<bool>, rows: seq<Stored>, ch: Chunk, r: Stored,
                                       b: ColBound)
    requires ChunkOf(cv, numeric, rows, ch) && r in rows && Cpred.Typed(numeric, r.1)
    requires b.col < |numeric| && numeric[b.col] && Satisfies(cv, r.1, b)
    ensures BoundSurvives(ch, b)
  {
    assert CellAt(cv, r.1, b.col) == Cell(cv, r.1, b.col);
    assert Summary(cv, rows, b.col, ch.min[b.col], ch.max[b.col]);
  }

  /** A skipped chunk holds no row the compiled filter accepts. */
  lemma {:induction false} MatchingRowSurvives(cv: Conversions, numeric: seq<bool>, rows: seq<Stored>, ch: Chunk,
                                               r: Stored, conj: seq<Term>)
    requires ChunkOf(cv, numeric, rows, ch) && r in rows && Cpred.Typed(numeric, r.1)
    requires TermsOk(numeric, conj) && Matches(cv, conj, r.1)
    ensures Survives(ch, Bounds(conj))
  {
    forall b | b in Bounds(conj) ensures BoundSurvives(ch, b) {
      BoundsNecessary(cv, conj, r.1, b);
      BoundsTyped(numeric, conj, b);
      RowSurvives(cv, numeric, rows, ch, r, b);
    }
  }

  // ---------------------------------------------------------------- surviving ranges

  /** Where chunk `i` ends: at the next chunk's start, or at the table's upper bound. */
  function EndOf(z: Map, i: nat): bytes
    requires i < |z.chunks|
  {
    if i + 1 < |z.chunks| then z.chunks[i + 1].start else z.upper
  }

  /** The range made of chunks `i` to `j`. */
  datatype Span = Span(first: nat, last: nat)

  ghost predicate MaximalSpan(z: Map, bounds: seq<ColBound>, s: Span) {
    && s.first <= s.last < |z.chunks|
    && (forall i | s.first <= i <= s.last :: Survives(z.chunks[i], bounds))
    && (s.first > 0 ==> !Survives(z.chunks[s.first - 1], bounds))
    && (s.last + 1 < |z.chunks| ==> !Survives(z.chunks[s.last + 1], bounds))
  }

  ghost predicate Covered(spans: seq<Span>, c: nat) {
    exists i | 0 <= i < |spans| :: spans[i].first <= c <= spans[i].last
  }

  /** The spans are the maximal runs of surviving chunks among the first `n`, in order, none left out. */
  ghost predicate SpansOf(z: Map, bounds: seq<ColBound>, spans: seq<Span>, n: nat) {
    && n <= |z.chunks|
    && (forall i | 0 <= i < |spans| :: MaximalSpan(z, bounds, spans[i]) && spans[i].last < n)
    && (forall i, j | 0 <= i < j < |spans| :: spans[i].last + 1 < spans[j].first)
    && (forall c | 0 <= c < n && Survives(z.chunks[c], bounds) :: Covered(spans, c))
  }

  function RangeOf(z: Map, s: Span): (bytes, bytes)
    requires s.first < |z.chunks| && s.last < |z.chunks|
  {
    (z.chunks[s.first].start, EndOf(z, s.last))
  }

  lemma {:induction false} SkipChunk(z: Map, bounds: seq<ColBound>, spans: seq<Span>, i: nat)
    requires SpansOf(z, bounds, spans, i) && i < |z.chunks| && !Survives(z.chunks[i], bounds)
    ensures SpansOf(z, bounds, spans, i + 1)
  {
  }

  lemma {:induction false} PushSpan(z: Map, bounds: seq<ColBound>, spans: seq<Span>, i: nat, j: nat)
    requires SpansOf(z, bounds, spans, i) && MaximalSpan(z, bounds, Span(i, j))
    ensures SpansOf(z, bounds, spans + [Span(i, j)], j + 1)
  {
    var spans' := spans + [Span(i, j)];
    forall k | 0 <= k < |spans| ensures spans[k].last + 1 < i {
      assert MaximalSpan(z, bounds, spans[k]);
    }
    forall c | 0 <= c < j + 1 && Survives(z.chunks[c], bounds) ensures Covered(spans', c) {
      if c < i {
        var k :| 0 <= k < |spans| && spans[k].first <= c <= spans[k].last;
        assert spans'[k].first <= c <= spans'[k].last;
      } else {
        assert spans'[|spans|].first <= c <= spans'[|spans|].last;
      }
    }
  }

  /** The inner loop: how far the run of surviving chunks from `i` goes. */
  method RunEnd(z: Map, bounds: seq<ColBound>, i: nat) returns (j: nat)
    requires i < |z.chunks| && Survives(z.chunks[i], bounds) && (i > 0 ==> !Survives(z.chunks[i - 1], bounds))
    ensures MaximalSpan(z, bounds, Span(i, j))
  {
    j := i;
    while j + 1 < |z.chunks| && Survives(z.chunks[j + 1], bounds)
      invariant i <= j < |z.chunks| && forall k | i <= k <= j :: Survives(z.chunks[k], bounds)
    {
      j := j + 1;
    }
  }

  /** `spans` says which runs of chunks the ranges stand for. */
  method SurvivingRanges(z: Map, bounds: seq<ColBound>) returns (ranges: seq<(bytes, bytes)>, ghost spans: seq<Span>)
    ensures SpansOf(z, bounds, spans, |z.chunks|) && |ranges| == |spans|
    ensures forall i | 0 <= i < |spans| :: ranges[i] == RangeOf(z, spans[i])
  {
    ranges, spans := [], [];
    var n := |z.chunks|;
    var i := 0;
    while i < n
      invariant 0 <= i <= n && FoundSoFar(z, bounds, spans, i, ranges)
      invariant 0 < i < n && Survives(z.chunks[i], bounds) ==> !Survives(z.chunks[i - 1], bounds)
    {
      if !Survives(z.chunks[i], bounds) {
        FoundSkip(z, bounds, spans, i, ranges);
        i := i + 1;
      } else {
        var j := RunEnd(z, bounds, i);
        var end := if j + 1 < n then z.chunks[j + 1].start else z.upper;
        FoundPush(z, bounds, spans, i, ranges, j);
        ranges := ranges + [(z.chunks[i].start, end)];
        spans := spans + [Span(i, j)];
        i := j + 1;
      }
    }
    FoundOpen(z, bounds, spans, n, ranges);
  }

  /** Spans and their ranges among the first `i` chunks, under a quantifier that keeps them folded in the loop. */
  ghost predicate FoundSoFar(z: Map, bounds: seq<ColBound>, spans: seq<Span>, i: nat, ranges: seq<(bytes, bytes)>) {
    forall n: nat :: FoundAt(n, z, bounds, spans, i, ranges)
  }

  ghost predicate FoundAt(n: nat, z: Map, bounds: seq<ColBound>, spans: seq<Span>, i: nat,
                          ranges: seq<(bytes, bytes)>) {
    && SpansOf(z, bounds, spans, i) && |ranges| == |spans|
    && forall k | 0 <= k < |spans| :: spans[k].first <= spans[k].last < |z.chunks| && ranges[k] == RangeOf(z, spans[k])
  }

  lemma {:induction false} FoundOpen(z: Map, bounds: seq<ColBound>, spans: seq<Span>, i: nat,
                                     ranges: seq<(bytes, bytes)>)
    requires FoundSoFar(z, bounds, spans, i, ranges)
    ensures SpansOf(z, bounds, spans, i) && |ranges| == |spans|
    ensures forall k | 0 <= k < |spans| ::
              spans[k].first <= spans[k].last < |z.chunks| && ranges[k] == RangeOf(z, spans[k])
  {
    assert FoundAt(0, z, bounds, spans, i, ranges);
  }

  lemma {:induction false} FoundSkip(z: Map, bounds: seq<ColBound>, spans: seq<Span>, i: nat,
                                     ranges: seq<(bytes, bytes)>)
    requires FoundSoFar(z, bounds, spans, i, ranges) && i < |z.chunks| && !Survives(z.chunks[i], bounds)
    ensures FoundSoFar(z, bounds, spans, i + 1, ranges)
  {
    FoundOpen(z, bounds, spans, i, ranges);
    SkipChunk(z, bounds, spans, i);
  }

  lemma {:induction false} FoundPush(z: Map, bounds: seq<ColBound>, spans: seq<Span>, i: nat,
                                     ranges: seq<(bytes, bytes)>, j: nat)
    requires FoundSoFar(z, bounds, spans, i, ranges) && MaximalSpan(z, bounds, Span(i, j))
    ensures FoundSoFar(z, bounds, spans + [Span(i, j)], j + 1, ranges + [RangeOf(z, Span(i, j))])
  {
    FoundOpen(z, bounds, spans, i, ranges);
    PushSpan(z, bounds, spans, i, j);
  }

  // ------------------------------------------------------------------- main results

  /** The rows fed, in ascending key order, all below `upper`. */
  ghost predicate Ordered(rows: seq<Stored>, upper: bytes) {
    && (forall i, j | 0 <= i < j < |rows| :: Less(rows[i].0, rows[j].0))
    && forall r | r in rows :: Less(r.0, upper)
  }

  lemma {:induction false} FlatMember(groups: seq<seq<Stored>>, r: Stored) returns (g: nat)
    requires r in Flat(groups)
    ensures g < |groups| && r in groups[g]
    decreases |groups|
  {
    var n := |groups| - 1;
    if r in groups[n] {
      g := n;
    } else {
      g := FlatMember(groups[..n], r);
    }
  }

  ghost predicate NoneEmpty(groups: seq<seq<Stored>>) {
    forall i | 0 <= i < |groups| :: groups[i] != []
  }

  /** Where group `g`'s keys end: at the next group's first key, or at `upper`. */
  ghost function GroupEnd(groups: seq<seq<Stored>>, upper: bytes, g: nat): bytes
    requires g < |groups| && NoneEmpty(groups)
  {
    if g + 1 < |groups| then groups[g + 1][0].0 else upper
  }

  lemma {:induction false} OrderedSplit(a: seq<Stored>, b: seq<Stored>, upper: bytes)
    requires Ordered(a + b, upper) && b != []
    ensures Ordered(a, b[0].0)
    ensures forall r | r in b :: AtMost(b[0].0, r.0) && Less(r.0, upper)
  {
    var all := a + b;
    assert all[|a|] == b[0];
    forall r | r in a ensures Less(r.0, b[0].0) {
      var i :| 0 <= i < |a| && a[i] == r;
      assert all[i] == r;
    }
    forall i, j | 0 <= i < j < |a| ensures Less(a[i].0, a[j].0) {
      assert all[i] == a[i] && all[j] == a[j];
    }
    forall r | r in b ensures AtMost(b[0].0, r.0) && Less(r.0, upper) {
      var i :| 0 <= i < |b| && b[i] == r;
      assert all[|a| + i] == r && r in all;
    }
  }

  /** An ordered feed cuts into ordered groups. */
  lemma {:induction false} GroupsOrdered(groups: seq<seq<Stored>>, upper: bytes, g: nat, r: Stored)
    requires NoneEmpty(groups) && Ordered(Flat(groups), upper) && g < |groups| && r in groups[g]
    ensures AtMost(groups[g][0].0, r.0) && Less(r.0, GroupEnd(groups, upper, g))
    decreases |groups|
  {
    var n := |groups| - 1;
    OrderedSplit(Flat(groups[..n]), groups[n], upper);
    if g < n {
      GroupsOrdered(groups[..n], groups[n][0].0, g, r);
    }
  }

  /** The chunks start at their groups' first keys, and the feed was in order. */
  ghost predicate Laid(groups: seq<seq<Stored>>, z: Map) {
    && |z.chunks| == |groups| && NoneEmpty(groups) && Ordered(Flat(groups), z.upper)
    && forall i | 0 <= i < |groups| :: z.chunks[i].start == groups[i][0].0
  }

  /** What `finish` returns after an ordered feed. */
  ghost predicate Built(cv: Conversions, numeric: seq<bool>, groups: seq<seq<Stored>>, z: Map) {
    Laid(groups, z) && forall i | 0 <= i < |groups| :: ChunkOf(cv, numeric, groups[i], z.chunks[i])
  }

  function StartOr(z: Map, j: nat): bytes {
    if j < |z.chunks| then z.chunks[j].start else z.upper
  }

  lemma {:induction false} StartsAscend(groups: seq<seq<Stored>>, z: Map, i: nat, j: nat)
    requires Laid(groups, z) && i < j <= |z.chunks|
    ensures Less(StartOr(z, i), StartOr(z, j))
    decreases j - i
  {
    GroupsOrdered(groups, z.upper, j - 1, groups[j - 1][0]);
    if i < j - 1 {
      StartsAscend(groups, z, i, j - 1);
      LessTransitive(StartOr(z, i), StartOr(z, j - 1), StartOr(z, j));
    }
  }

  lemma {:induction false} Between2(a: bytes, b: bytes, c: bytes)
    requires Less(a, b) && AtMost(b, c)
    ensures Less(a, c)
  {
    if b != c { LessTransitive(a, b, c); }
  }

  lemma {:induction false} NotBefore(a: bytes, b: bytes)
    requires AtMost(a, b)
    ensures !Less(b, a)
  {
    LessIrreflexive(a);
    if a != b { LessAsymmetric(a, b); }
  }

  ghost predicate InRangeOf(z: Map, s: Span, k: bytes)
    requires s.first < |z.chunks| && s.last < |z.chunks|
  {
    AtMost(RangeOf(z, s).0, k) && Less(k, RangeOf(z, s).1)
  }

  /** A row's key is in the range of a span exactly when its chunk is one of the span's. */
  lemma {:induction false} SpanHolds(groups: seq<seq<Stored>>, z: Map, s: Span, g: nat, r: Stored)
    requires Laid(groups, z) && s.first <= s.last < |z.chunks| && g < |groups| && r in groups[g]
    ensures InRangeOf(z, s, r.0) <==> s.first <= g <= s.last
  {
    GroupsOrdered(groups, z.upper, g, r);
    assert AtMost(StartOr(z, g), r.0) && Less(r.0, StartOr(z, g + 1));
    if s.first < g {
      StartsAscend(groups, z, s.first, g);
      Between2(StartOr(z, s.first), StartOr(z, g), r.0);
    } else if g < s.first {
      if g + 1 < s.first {
        StartsAscend(groups, z, g + 1, s.first);
        LessTransitive(r.0, StartOr(z, g + 1), StartOr(z, s.first));
      }
      LessAsymmetric(r.0, StartOr(z, s.first));
    }
    if g < s.last {
      StartsAscend(groups, z, g + 1, s.last + 1);
      LessTransitive(r.0, StartOr(z, g + 1), StartOr(z, s.last + 1));
    } else if g > s.last {
      if g > s.last + 1 {
        StartsAscend(groups, z, s.last + 1, g);
        Between2(StartOr(z, s.last + 1), StartOr(z, g), r.0);
      }
      NotBefore(StartOr(z, s.last + 1), r.0);
    }
  }

  /**
   * A zone-map scan loses nothing: after an ordered feed, every row the compiled filter accepts lies in one of
   * the ranges returned for the filter's bounds.
   */
  lemma {:induction false} ZoneScanComplete(cv: Conversions, numeric: seq<bool>, groups: seq<seq<Stored>>, z: Map,
                                            conj: seq<Term>,
                                            spans: seq<Span>, r: Stored)
    requires Built(cv, numeric, groups, z) && SpansOf(z, Bounds(conj), spans, |z.chunks|)
    requires r in Flat(groups) && Cpred.Typed(numeric, r.1) && TermsOk(numeric, conj) && Matches(cv, conj, r.1)
    ensures exists i | 0 <= i < |spans| :: InRangeOf(z, spans[i], r.0)
  {
    var g := FlatMember(groups, r);
    MatchingRowSurvives(cv, numeric, groups[g], z.chunks[g], r, conj);
    assert Covered(spans, g);
    var i :| 0 <= i < |spans| && spans[i].first <= g <= spans[i].last;
    SpanHolds(groups, z, spans[i], g, r);
  }

  /** Nothing needless is scanned: a row inside a range belongs to a chunk that survives the bounds. */
  lemma {:induction false} ZoneScanTight(groups: seq<seq<Stored>>, z: Map, bounds: seq<ColBound>, spans: seq<Span>,
                                         i: nat, g: nat, r: Stored)
    requires Laid(groups, z) && SpansOf(z, bounds, spans, |z.chunks|)
    requires i < |spans| && g < |groups| && r in groups[g] && InRangeOf(z, spans[i], r.0)
    ensures Survives(z.chunks[g], bounds)
  {
    SpanHolds(groups, z, spans[i], g, r);
  }

  lemma {:induction false} SpanOrder(groups: seq<seq<Stored>>, z: Map, a: Span, b: Span)
    requires Laid(groups, z) && a.first <= a.last && a.last + 1 < b.first <= b.last < |z.chunks|
    ensures Less(RangeOf(z, a).0, RangeOf(z, a).1) && Less(RangeOf(z, a).1, RangeOf(z, b).0)
    ensures Less(RangeOf(z, b).0, RangeOf(z, b).1)
  {
    StartsAscend(groups, z, a.first, a.last + 1);
    StartsAscend(groups, z, a.last + 1, b.first);
    StartsAscend(groups, z, b.first, b.last + 1);
  }

  /** Any two ranges are non-empty, in order and disjoint: a skipped chunk lies between them. */
  lemma {:induction false} RangesDisjoint(groups: seq<seq<Stored>>, z: Map, bounds: seq<ColBound>, spans: seq<Span>,
                                          i: nat, j: nat)
    requires Laid(groups, z) && SpansOf(z, bounds, spans, |z.chunks|) && i < j < |spans|
    ensures MaximalSpan(z, bounds, spans[i]) && MaximalSpan(z, bounds, spans[j])
    ensures Less(RangeOf(z, spans[i]).0, RangeOf(z, spans[i]).1) && Less(RangeOf(z, spans[j]).0, RangeOf(z, spans[j]).1)
    ensures Less(RangeOf(z, spans[i]).1, RangeOf(z, spans[j]).0)
  {
    var a, b := spans[i], spans[j];
    assert MaximalSpan(z, bounds, a) && MaximalSpan(z, bounds, b) && a.last + 1 < b.first;
    SpanOrder(groups, z, a, b);
  }

  /** A table scanned once, in key order. */
  method Build(cv: Conversions, numeric: seq<bool>, rows: seq<Stored>, upper: bytes)
    returns (z: Map, ghost groups: seq<seq<Stored>>)
    requires Ordered(rows, upper)
    ensures Built(cv, numeric, groups, z) && Flat(groups) == rows
  {
    var b := new Builder(cv, numeric);
    for i := 0 to |rows|
      invariant b.Valid() && b.Fed() == rows[..i] && b.cv == cv && b.numeric == numeric
    {
      b.Feed(rows[i].0, rows[i].1);
      assert rows[..i + 1] == rows[..i] + [rows[i]];
    }
    assert rows[..|rows|] == rows;
    z := b.Finish(upper);
    groups := b.groups;
  }

  /**
   * Scanning only the surviving ranges with the compiled filter accepts exactly the rows the interpreter accepts
   * on a full scan.
   */
  lemma {:induction false} ZoneScanIsFullScan(cv: Conversions, numeric: seq<bool>, groups: seq<seq<Stored>>, z: Map,
                                              e: Expr, terms: seq<Term>,
                                              spans: seq<Span>, r: Stored)
    requires Built(cv, numeric, groups, z) && SpansOf(z, Bounds(terms), spans, |z.chunks|)
    requires TermsOk(numeric, terms) && Compiles(cv, numeric, e, terms)
    requires r in Flat(groups) && Cpred.Typed(numeric, r.1)
    ensures (exists i | 0 <= i < |spans| :: InRangeOf(z, spans[i], r.0)) && Matches(cv, terms, r.1)
       <==> Passes(cv, e, r.1)
  {
    if Matches(cv, terms, r.1) {
      ZoneScanComplete(cv, numeric, groups, z, terms, spans, r);
    }
  }
}
