/**
 * GROUP BY with resident groups and spilled partitions (crates/elyra-engine/src/exec.rs,
 * crates/elyra-olap/src/lib.rs).
 */
module GroupBy {
  import opened Wrappers
  import opened Bytes
  import opened AggSpill

  /**
   * An aggregation: the group key of a row, the key it is routed by, its contribution and how contributions
   * combine. The routing key may be coarser than the group key (it ignores the columns' collations).
   */
  datatype Agg<!A> = Agg(key: Row -> bytes, route: Row -> bytes, lift: Row -> A, merge: (A, A) -> A)

  ghost predicate Lawful<A(!new)>(g: Agg<A>) {
    && (forall x, y :: g.merge(x, y) == g.merge(y, x))
    && (forall x, y, z :: g.merge(g.merge(x, y), z) == g.merge(x, g.merge(y, z)))
    && (forall a, b :: g.key(a) == g.key(b) ==> g.route(a) == g.route(b))
  }

  function Feed<A>(g: Agg<A>, m: map<bytes, A>, row: Row): map<bytes, A> {
    var k := g.key(row);
    if k in m then m[k := g.merge(m[k], g.lift(row))] else m[k := g.lift(row)]
  }

  /** One pass over all rows. */
  function Totals<A>(g: Agg<A>, rows: seq<Row>): map<bytes, A> {
    if rows == [] then map[] else Feed(g, Totals(g, rows[..|rows| - 1]), rows[|rows| - 1])
  }

  lemma {:induction false} Swapped<A(!new)>(g: Agg<A>, m: A, a: A, b: A)
    requires Lawful(g)
    ensures g.merge(a, b) == g.merge(b, a) && g.merge(g.merge(m, a), b) == g.merge(g.merge(m, b), a)
  {
    assert g.merge(g.merge(m, a), b) == g.merge(m, g.merge(a, b));
    assert g.merge(g.merge(m, b), a) == g.merge(m, g.merge(b, a));
  }

  lemma {:induction false} FeedTwice<A>(g: Agg<A>, m: map<bytes, A>, x: Row, y: Row)
    requires g.merge(g.lift(x), g.lift(y)) == g.merge(g.lift(y), g.lift(x))
    requires g.key(x) in m ==>
               g.merge(g.merge(m[g.key(x)], g.lift(x)), g.lift(y)) ==
               g.merge(g.merge(m[g.key(x)], g.lift(y)), g.lift(x))
    ensures Feed(g, Feed(g, m, x), y) == Feed(g, Feed(g, m, y), x)
  {
  }

  lemma {:induction false} FeedCommutes<A(!new)>(g: Agg<A>, m: map<bytes, A>, x: Row, y: Row)
    requires Lawful(g)
    ensures Feed(g, Feed(g, m, x), y) == Feed(g, Feed(g, m, y), x)
  {
    var k := g.key(x);
    Swapped(g, if k in m then m[k] else g.lift(x), g.lift(x), g.lift(y));
    FeedTwice(g, m, x, y);
  }

  /** A row can be fed later. */
  lemma {:induction false} FeedLater<A(!new)>(g: Agg<A>, a: seq<Row>, x: Row, b: seq<Row>)
    requires Lawful(g)
    ensures Totals(g, a + [x] + b) == Feed(g, Totals(g, a + b), x)
  {
    if b == [] {
      assert a + b == a && a + [x] + b == a + [x] && (a + [x])[..|a|] == a;
    } else {
      var y, b' := b[|b| - 1], b[..|b| - 1];
      FeedLater(g, a, x, b');
      assert (a + [x] + b)[..|a| + |b|] == a + [x] + b' && (a + b)[..|a| + |b| - 1] == a + b';
      FeedCommutes(g, Totals(g, a + b'), x, y);
    }
  }

  /** The order of rows does not matter. */
  lemma {:induction false} TotalsPermuted<A(!new)>(g: Agg<A>, a: seq<Row>, b: seq<Row>)
    requires Lawful(g) && multiset(a) == multiset(b)
    ensures Totals(g, a) == Totals(g, b)
    decreases |a|
  {
    assert |a| == |multiset(a)| == |multiset(b)| == |b|;
    if a != [] {
      var x, a' := a[|a| - 1], a[..|a| - 1];
      assert a == a' + [x];
      assert x in multiset(a) && x in multiset(b);
      var i :| 0 <= i < |b| && b[i] == x;
      var l, r := b[..i], b[i + 1..];
      assert b == l + [x] + r;
      FeedLater(g, l, x, r);
      assert multiset(l + r) == multiset(b) - multiset{x};
      TotalsPermuted(g, a', l + r);
    }
  }

  lemma {:induction false} TotalsKeys<A>(g: Agg<A>, rows: seq<Row>)
    ensures forall k :: k in Totals(g, rows) <==> exists i :: 0 <= i < |rows| && g.key(rows[i]) == k
  {
    if rows != [] {
      var n := |rows| - 1;
      TotalsKeys(g, rows[..n]);
      forall k ensures k in Totals(g, rows) <==> exists i :: 0 <= i < |rows| && g.key(rows[i]) == k {
        if k in Totals(g, rows[..n]) {
          var i :| 0 <= i < n && g.key(rows[..n][i]) == k;
          assert g.key(rows[i]) == k;
        }
        if exists i :: 0 <= i < |rows| && g.key(rows[i]) == k {
          var i :| 0 <= i < |rows| && g.key(rows[i]) == k;
          assert i < n ==> g.key(rows[..n][i]) == k;
        }
      }
    }
  }

  ghost predicate Apart<A>(g: Agg<A>, a: seq<Row>, b: seq<Row>) {
    forall x, y | x in a && y in b :: g.key(x) != g.key(y)
  }

  lemma {:induction false} FeedApart<A>(g: Agg<A>, m: map<bytes, A>, n: map<bytes, A>, y: Row)
    requires g.key(y) !in m
    ensures Feed(g, m + n, y) == m + Feed(g, n, y)
  {
  }

  lemma {:induction false} KeyApart<A>(g: Agg<A>, a: seq<Row>, y: Row)
    requires forall x | x in a :: g.key(x) != g.key(y)
    ensures g.key(y) !in Totals(g, a)
  {
    TotalsKeys(g, a);
  }

  /** Rows with no key in common are aggregated apart and put together. */
  lemma {:induction false} TotalsApart<A>(g: Agg<A>, a: seq<Row>, b: seq<Row>)
    requires Apart(g, a, b)
    ensures Totals(g, a + b) == Totals(g, a) + Totals(g, b)
  {
    if b == [] {
      assert a + b == a;
    } else {
      var y, b' := b[|b| - 1], b[..|b| - 1];
      assert (a + b)[..|a| + |b| - 1] == a + b';
      TotalsApart(g, a, b');
      assert y in b;
      KeyApart(g, a, y);
      FeedApart(g, Totals(g, a), Totals(g, b'), y);
    }
  }

  // ------------------------------------------------------------ resident and spilled

  ghost function BagSum(bags: seq<multiset<Row>>): multiset<Row> {
    if bags == [] then multiset{} else BagSum(bags[..|bags| - 1]) + bags[|bags| - 1]
  }

  lemma {:induction false} BagSumAdd(bags: seq<multiset<Row>>, p: nat, row: Row)
    requires p < |bags|
    ensures BagSum(bags[p := bags[p] + multiset{row}]) == BagSum(bags) + multiset{row}
  {
    var n := |bags| - 1;
    if p < n {
      BagSumAdd(bags[..n], p, row);
      assert bags[p := bags[p] + multiset{row}][..n] == bags[..n][p := bags[..n][p] + multiset{row}];
    } else {
      assert bags[p := bags[p] + multiset{row}][..n] == bags[..n];
    }
  }

  lemma {:induction false} BagSumNone(bags: seq<multiset<Row>>)
    requires forall p | 0 <= p < |bags| :: bags[p] == multiset{}
    ensures BagSum(bags) == multiset{}
  {
    if bags != [] {
      BagSumNone(bags[..|bags| - 1]);
    }
  }

  /** A spilled row belongs to no resident group and sits in the partition of its routing key. */
  ghost predicate InPlace<A>(g: Agg<A>, resident: map<bytes, A>, routed: seq<multiset<Row>>) {
    |routed| > 0 && forall p, row | 0 <= p < |routed| && row in routed[p] ::
      g.key(row) !in resident && Partition(g.route(row), |routed|) == p
  }

  lemma {:induction false} BagSumHas(bags: seq<multiset<Row>>, p: nat, row: Row)
    requires p < |bags| && row in bags[p]
    ensures row in BagSum(bags)
  {
    if p < |bags| - 1 {
      BagSumHas(bags[..|bags| - 1], p, row);
    }
  }

  /** Every row fed is either in its resident group or spilled, and rows spill only when no new group may start. */
  ghost predicate Balanced<A>(g: Agg<A>, cap: nat, resident: map<bytes, A>, kept: seq<Row>, fed: seq<Row>,
                              routed: seq<multiset<Row>>) {
    && resident == Totals(g, kept)
    && InPlace(g, resident, routed)
    && multiset(fed) == multiset(kept) + BagSum(routed)
    && (BagSum(routed) != multiset{} ==> cap > 0 && |resident| >= cap)
  }

  lemma {:induction false} KeepInPlace<A>(g: Agg<A>, cap: nat, resident: map<bytes, A>, routed: seq<multiset<Row>>,
                                          row: Row)
    requires InPlace(g, resident, routed) && (BagSum(routed) != multiset{} ==> cap > 0 && |resident| >= cap)
    requires g.key(row) in resident || cap == 0 || |resident| < cap
    ensures InPlace(g, Feed(g, resident, row), routed)
  {
    forall p, x | 0 <= p < |routed| && x in routed[p] ensures g.key(x) !in Feed(g, resident, row) {
      BagSumHas(routed, p, x);
      assert g.key(row) in resident;
    }
  }

  lemma {:induction false} KeepBalanced<A>(g: Agg<A>, cap: nat, resident: map<bytes, A>, kept: seq<Row>, fed: seq<Row>,
                                           routed: seq<multiset<Row>>,
                                           row: Row)
    requires Balanced(g, cap, resident, kept, fed, routed)
    requires g.key(row) in resident || cap == 0 || |resident| < cap
    ensures Balanced(g, cap, Feed(g, resident, row), kept + [row], fed + [row], routed)
  {
    KeepInPlace(g, cap, resident, routed, row);
    assert (kept + [row])[..|kept|] == kept;
    assert multiset(kept + [row]) == multiset(kept) + multiset{row}
           && multiset(fed + [row]) == multiset(fed) + multiset{row};
    GrowingMap(resident, g.key(row), Feed(g, resident, row));
  }

  lemma {:induction false} GrowingMap<A>(m: map<bytes, A>, k: bytes, m': map<bytes, A>)
    requires m'.Keys == m.Keys + {k}
    ensures |m| <= |m'|
  {
    assert |m.Keys| <= |m'.Keys| by {
      if k in m.Keys { assert m'.Keys == m.Keys; }
    }
  }

  lemma {:induction false} SpillBalanced<A>(g: Agg<A>, cap: nat, resident: map<bytes, A>, kept: seq<Row>, fed: seq<Row>,
                                            routed: seq<multiset<Row>>,
                                            row: Row, p: nat)
    requires Balanced(g, cap, resident, kept, fed, routed) && |routed| > 0 && p == Partition(g.route(row), |routed|)
    requires g.key(row) !in resident && cap > 0 && |resident| >= cap
    ensures Balanced(g, cap, resident, kept, fed + [row], routed[p := routed[p] + multiset{row}])
  {
    BagSumAdd(routed, p, row);
    assert multiset(fed + [row]) == multiset(fed) + multiset{row};
  }

  /** The groups of a bag of rows. */
  ghost function GroupsOf<A>(g: Agg<A>, bag: multiset<Row>): set<bytes> {
    set row | row in bag :: g.key(row)
  }

  /** More groups than may be resident. */
  ghost predicate Crowd<A>(g: Agg<A>, cap: nat, bag: multiset<Row>) {
    cap > 0 && |GroupsOf(g, bag)| > cap
  }

  /** Each group has a sample: a row of that group. */
  ghost predicate Sampled<A>(g: Agg<A>, samples: map<bytes, Row>, rows: seq<Row>) {
    && (forall x | x in rows :: g.key(x) in samples)
    && (forall k | k in samples :: samples[k] in rows && g.key(samples[k]) == k)
  }

  /** The first row of a new group is kept. */
  function Sample<A>(g: Agg<A>, samples: map<bytes, Row>, row: Row): map<bytes, Row> {
    if g.key(row) in samples then samples else samples[g.key(row) := row]
  }

  lemma {:induction false} SampledNext<A>(g: Agg<A>, samples: map<bytes, Row>, rows: seq<Row>, row: Row)
    requires Sampled(g, samples, rows)
    ensures Sampled(g, Sample(g, samples, row), rows + [row])
  {
  }

  lemma {:induction false} SampledBoth<A>(g: Agg<A>, a: map<bytes, Row>, xs: seq<Row>, b: map<bytes, Row>, ys: seq<Row>)
    requires Sampled(g, a, xs) && Sampled(g, b, ys)
    ensures Sampled(g, a + b, xs + ys)
  {
  }

  lemma {:induction false} SampledPermuted<A>(g: Agg<A>, samples: map<bytes, Row>, xs: seq<Row>, ys: seq<Row>)
    requires Sampled(g, samples, xs) && multiset(xs) == multiset(ys)
    ensures Sampled(g, samples, ys)
  {
    forall x ensures x in xs <==> x in ys {
      assert x in multiset(xs) <==> x in multiset(ys);
    }
  }

  class SpillAgg<A(!new)> {
    const cap: nat
    var resident: map<bytes, A>
    var samples: map<bytes, Row>
    var parts: Partitions
    /** The rows aggregated in memory, and all rows fed. */
    ghost var kept: seq<Row>
    ghost var fed: seq<Row>

    ghost predicate Valid(g: Agg<A>, c: Codec)
      reads this, parts
    {
      && parts.Valid(c) && parts.buffered < parts.budget && Faithful(c)
      && Balanced(g, cap, resident, kept, fed, parts.routed) && Sampled(g, samples, kept)
    }

    constructor (g: Agg<A>, c: Codec, cap: nat, partitions: nat, budget: nat)
      requires partitions > 0 && Faithful(c)
      ensures Valid(g, c) && fed == [] && this.cap == cap && fresh(parts)
    {
      this.cap := cap;
      resident, samples := map[], map[];
      parts := new Partitions(c, partitions, budget);
      kept, fed := [], [];
      new;
      BagSumNone(parts.routed);
    }

    /** A row of a resident group, or of a new one while there is room, is aggregated; any other is spilled. */
    method FeedRow(g: Agg<A>, c: Codec, row: Row)
      requires Valid(g, c)
      modifies this, parts
      ensures Valid(g, c) && fed == old(fed) + [row] && parts == old(parts)
    {
      var k := g.key(row);
      if k in resident || cap == 0 || |resident| < cap {
        KeepBalanced(g, cap, resident, kept, fed, parts.routed, row);
        SampledNext(g, samples, kept, row);
        resident, samples := Feed(g, resident, row), Sample(g, samples, row);
        kept := kept + [row];
      } else {
        var p := PartitionOf(g.route(row), |parts.mem|);
        SpillBalanced(g, cap, resident, kept, fed, parts.routed, row, p);
        parts.Route(c, p, row);
      }
      fed := fed + [row];
    }

    /** One partition, drained and aggregated; an error if it cannot be read back or has too many groups. */
    method DrainOne(g: Agg<A>, c: Codec, p: nat, ghost routed: seq<multiset<Row>>, ghost spills: seq<seq<Row>>)
      returns (agg: Option<map<bytes, A>>, sampled: map<bytes, Row>, ghost drained: seq<Row>)
      requires parts.Drained(c, p, routed, spills) && p < |parts.mem| == |routed| && Faithful(c)
      modifies parts
      ensures parts.Drained(c, p + 1, routed, spills) && |parts.mem| == |routed|
      ensures Handled(g, c, cap, routed[p], spills[p]) ==>
                multiset(drained) == routed[p] && agg == Some(Totals(g, drained))
      ensures Handled(g, c, cap, routed[p], spills[p]) ==> Sampled(g, sampled, drained)
      ensures Short(c, spills[p]) && !Handled(g, c, cap, routed[p], spills[p]) ==> agg.None?
    {
      var rows := parts.DrainEach(c, p);
      drained := if rows.Ok? then rows.value else [];
      if rows.Err? { return None, map[], drained; }
      agg, sampled := Aggregate(g, rows.value, cap);
    }

    /** No partition is crowded or has a spilled row over the limit. */
    ghost predicate CanFinish(g: Agg<A>, c: Codec)
      reads this, parts
    {
      AllHandled(g, c, cap, parts.routed, parts.spilled, |parts.routed|)
    }

    /**
     * The resident groups, then every partition aggregated on its own: one pass over all rows fed, and an error
     * exactly when a partition is crowded or a spilled row is over the limit.
     */
    method Finalize(g: Agg<A>, c: Codec) returns (r: Result<map<bytes, A>, ()>, shown: map<bytes, Row>)
      requires Valid(g, c) && Lawful(g)
      modifies parts
      ensures old(CanFinish(g, c)) ==> r == Ok(Totals(g, fed)) && Sampled(g, shown, fed)
      ensures AllShort(c, old(parts.spilled)) && !old(CanFinish(g, c)) ==> r.Err?
    {
      var out := resident;
      shown := samples;
      ghost var routed, spills, rows := parts.routed, parts.spilled, kept;
      for p := 0 to |parts.mem|
        invariant |parts.mem| == |routed| && parts.Drained(c, p, routed, spills)
        invariant AllHandled(g, c, cap, routed, spills, p) ==> Gathered(g, resident, kept, routed, rows, p, out)
        invariant AllHandled(g, c, cap, routed, spills, p) ==> Sampled(g, shown, rows)
        invariant AllShort(c, spills) ==> AllHandled(g, c, cap, routed, spills, p)
      {
        var agg, sampled;
        ghost var drained;
        agg, sampled, drained := DrainOne(g, c, p, routed, spills);
        HandledNext(g, c, cap, routed, spills, p);
        if agg.None? { return Err(()), shown; }
        if AllHandled(g, c, cap, routed, spills, p + 1) {
          GatherNext(g, resident, kept, routed, rows, p, out, drained);
          SampledBoth(g, shown, rows, sampled, drained);
        }
        out, shown := out + agg.value, shown + sampled;
        rows := rows + drained;
      }
      if AllHandled(g, c, cap, routed, spills, |routed|) {
        GatheredAll(g, resident, kept, routed, rows, out, fed);
        SampledPermuted(g, shown, rows, fed);
      }
      return Ok(out), shown;
    }
  }

  ghost predicate AllShort(c: Codec, spills: seq<seq<Row>>) {
    forall p | 0 <= p < |spills| :: Short(c, spills[p])
  }

  /** A partition that is not crowded and whose spilled rows are within what a reader takes. */
  ghost predicate Handled<A>(g: Agg<A>, c: Codec, cap: nat, bag: multiset<Row>, spill: seq<Row>) {
    !Crowd(g, cap, bag) && Readable(c, spill)
  }

  /** The first `n` partitions are of that kind. */
  ghost predicate AllHandled<A>(g: Agg<A>, c: Codec, cap: nat, routed: seq<multiset<Row>>, spills: seq<seq<Row>>,
                                n: nat) {
    n <= |routed| && n <= |spills| && (n > 0 ==>
      AllHandled(g, c, cap, routed, spills, n - 1) && Handled(g, c, cap, routed[n - 1], spills[n - 1]))
  }

  lemma {:induction false} HandledUpto<A>(g: Agg<A>, c: Codec, cap: nat, routed: seq<multiset<Row>>,
                                          spills: seq<seq<Row>>, m: nat, n: nat)
    requires m <= n && AllHandled(g, c, cap, routed, spills, n)
    ensures AllHandled(g, c, cap, routed, spills, m)
    decreases n
  {
    if m < n {
      HandledUpto(g, c, cap, routed, spills, m, n - 1);
    }
  }

  /** One more partition; and one that is not handled spoils the whole. */
  lemma {:induction false} HandledNext<A>(g: Agg<A>, c: Codec, cap: nat, routed: seq<multiset<Row>>,
                                          spills: seq<seq<Row>>, p: nat)
    requires p < |routed| == |spills|
    ensures AllHandled(g, c, cap, routed, spills, p + 1) <==>
            AllHandled(g, c, cap, routed, spills, p) && Handled(g, c, cap, routed[p], spills[p])
    ensures AllHandled(g, c, cap, routed, spills, |routed|) ==> AllHandled(g, c, cap, routed, spills, p + 1)
  {
    if AllHandled(g, c, cap, routed, spills, |routed|) {
      HandledUpto(g, c, cap, routed, spills, p + 1, |routed|);
    }
  }

  /** One partition, aggregated; `None` exactly if even its groups exceed the cap. */
  method Aggregate<A(!new)>(g: Agg<A>, rows: seq<Row>, cap: nat)
    returns (r: Option<map<bytes, A>>, samples: map<bytes, Row>)
    ensures r == if Crowd(g, cap, multiset(rows)) then None else Some(Totals(g, rows))
    ensures r.Some? ==> Sampled(g, samples, rows)
  {
    var m: map<bytes, A> := map[];
    samples := map[];
    var overflow := false;
    for i := 0 to |rows|
      invariant !overflow ==> m == Totals(g, rows[..i]) && (cap > 0 ==> |m| <= cap) && Sampled(g, samples, rows[..i])
      invariant overflow ==> cap > 0 && |Totals(g, rows[..i])| > cap
    {
      assert rows[..i + 1][..i] == rows[..i];
      assert rows[..i + 1] == rows[..i] + [rows[i]];
      FeedGrows(g, Totals(g, rows[..i]), rows[i]);
      if g.key(rows[i]) in m || cap == 0 || |m| < cap {
        if !overflow { SampledNext(g, samples, rows[..i], rows[i]); }
        m, samples := Feed(g, m, rows[i]), Sample(g, samples, rows[i]);
      } else {
        overflow := true;
      }
    }
    assert rows[..|rows|] == rows;
    TotalsGroups(g, rows);
    return if overflow then None else Some(m), samples;
  }

  lemma {:induction false} FeedGrows<A>(g: Agg<A>, m: map<bytes, A>, row: Row)
    ensures |Feed(g, m, row)| == if g.key(row) in m then |m| else |m| + 1
  {
    var k := g.key(row);
    var m' := Feed(g, m, row);
    assert m'.Keys == m.Keys + {k};
    if k in m {
      assert m'.Keys == m.Keys;
    }
  }

  lemma {:induction false} TotalsGroups<A>(g: Agg<A>, rows: seq<Row>)
    ensures |Totals(g, rows)| == |GroupsOf(g, multiset(rows))|
  {
    TotalsKeys(g, rows);
    assert Totals(g, rows).Keys == GroupsOf(g, multiset(rows)) by {
      forall k ensures k in Totals(g, rows) <==> k in GroupsOf(g, multiset(rows)) {
        if k in Totals(g, rows) {
          var i :| 0 <= i < |rows| && g.key(rows[i]) == k;
          assert rows[i] in multiset(rows);
        }
      }
    }
  }

  /** Rows gathered so far are resident ones or come from the first `p` partitions. */
  ghost predicate Before<A>(g: Agg<A>, kept: seq<Row>, routed: seq<multiset<Row>>, rows: seq<Row>, p: nat) {
    forall x | x in rows :: x in kept || exists q :: 0 <= q < p && q < |routed| && x in routed[q]
  }

  /** What has been put together after `p` partitions. */
  ghost predicate Gathered<A>(g: Agg<A>, resident: map<bytes, A>, kept: seq<Row>, routed: seq<multiset<Row>>,
                              rows: seq<Row>, p: nat,
                              out: map<bytes, A>) {
    && p <= |routed| && resident == Totals(g, kept) && InPlace(g, resident, routed)
    && out == Totals(g, rows) && multiset(rows) == multiset(kept) + BagSum(routed[..p])
    && Before(g, kept, routed, rows, p)
  }

  lemma {:induction false} GatherNext<A(!new)>(g: Agg<A>, resident: map<bytes, A>, kept: seq<Row>,
                                               routed: seq<multiset<Row>>, rows: seq<Row>, p: nat,
                                               out: map<bytes, A>, drained: seq<Row>)
    requires Lawful(g) && Gathered(g, resident, kept, routed, rows, p, out) && p < |routed|
             && multiset(drained) == routed[p]
    ensures Gathered(g, resident, kept, routed, rows + drained, p + 1, out + Totals(g, drained))
  {
    ApartNext(g, resident, kept, routed, rows, p, drained);
    TotalsApart(g, rows, drained);
    assert routed[..p + 1][..p] == routed[..p];
    assert multiset(rows + drained) == multiset(rows) + multiset(drained);
  }

  lemma {:induction false} GatheredAll<A(!new)>(g: Agg<A>, resident: map<bytes, A>, kept: seq<Row>,
                                                routed: seq<multiset<Row>>, rows: seq<Row>,
                                                out: map<bytes, A>, fed: seq<Row>)
    requires Lawful(g) && Gathered(g, resident, kept, routed, rows, |routed|, out)
             && multiset(fed) == multiset(kept) + BagSum(routed)
    ensures out == Totals(g, fed) && multiset(rows) == multiset(fed)
  {
    assert routed[..|routed|] == routed;
    TotalsPermuted(g, rows, fed);
  }

  lemma {:induction false} ApartNext<A(!new)>(g: Agg<A>, resident: map<bytes, A>, kept: seq<Row>,
                                              routed: seq<multiset<Row>>, rows: seq<Row>,
                                              p: nat, drained: seq<Row>)
    requires Lawful(g) && resident == Totals(g, kept) && InPlace(g, resident, routed)
             && Before(g, kept, routed, rows, p)
    requires p < |routed| && multiset(drained) == routed[p]
    ensures Apart(g, rows, drained) && Before(g, kept, routed, rows + drained, p + 1)
  {
    TotalsKeys(g, kept);
    forall y | y in drained ensures y in routed[p] { assert y in multiset(drained); }
    forall x, y | x in rows && y in drained ensures g.key(x) != g.key(y) {
      if x in kept {
        var i :| 0 <= i < |kept| && kept[i] == x;
        assert g.key(x) in resident;
      } else {
        var q :| 0 <= q < p && q < |routed| && x in routed[q];
      }
    }
    forall x | x in rows + drained ensures x in kept || exists q :: 0 <= q < p + 1 && q < |routed| && x in routed[q] {
      if x in rows && x !in kept {
        var q :| 0 <= q < p && q < |routed| && x in routed[q];
        assert q < p + 1;
      }
    }
  }
}
