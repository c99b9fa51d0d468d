/** Instances of what other modules ask of their parameters: none of it asks for the impossible. */
module Instances {
  import opened Wrappers
  import opened Bytes
  import opened Values
  import AggSpill
  import CollMig
  import Comparing
  import EqualKeys
  import GroupBy
  import GroupKey
  import RowDec

  // ------------------------------------------------------------------------- floats

  const HALF := 0x8000_0000_0000_0000

  /** A sign bit over a whole number. */
  function FloatValue(bits: u64): real {
    if bits < HALF then bits as real else -((bits - HALF) as real)
  }

  function Clamped(i: int): int {
    if i < -Comparing.EXACT then -Comparing.EXACT else if i > Comparing.EXACT then Comparing.EXACT else i
  }

  function BitsOf(i: int): u64 {
    if Clamped(i) >= 0 then Clamped(i) else HALF - Clamped(i)
  }

  function Flipped(bits: u64): u64 {
    if bits < HALF then bits + HALF else bits - HALF
  }

  function Whole(i: int): real {
    Clamped(i) as real
  }

  function Bits(units: int, scale: nat): u64 {
    if scale == 0 then BitsOf(units) else 0
  }

  /** Whole numbers stop at 2^53, so the integers from there on share a float. */
  function Floats(): Comparing.Conversions {
    Comparing.Conversions(FloatValue, Flipped, Whole, (n, scale) => Bits(n, scale), Bits, (_, _) => None,
                          _ => false)
  }

  lemma {:induction false} BitsHold(i: int, scale: nat)
    ensures FloatValue(Bits(i, scale)) == if scale == 0 then Whole(i) else 0.0
    ensures Whole(-i) == -Whole(i)
  {
  }

  lemma {:induction false} FlippedNegates(bits: u64)
    ensures FloatValue(Flipped(bits)) == -FloatValue(bits)
  {
  }

  lemma {:induction false} FloatsSound()
    ensures Comparing.Sound(Floats())
    ensures Floats().ofInt(Comparing.EXACT + 1) == Floats().ofInt(Comparing.EXACT)
  {
    forall i: int, s: nat
      ensures FloatValue(Bits(i, s)) == (if s == 0 then Whole(i) else 0.0) && Whole(-i) == -Whole(i)
    {
      BitsHold(i, s);
    }
    forall b: u64 ensures FloatValue(Flipped(b)) == -FloatValue(b) {
      FlippedNegates(b);
    }
  }

  // -------------------------------------------------------------------------- keys

  /** A tag, then the value: dates and times in a fixed width, bytes as they are. */
  function Shown(v: Value): bytes {
    match v
    case Blob(s) => [5] + s
    case Date(d) => [7] + RowDec.Signed(d, 4)
    case DateTime(t) => [8] + RowDec.Signed(t, 8)
    case Time(t) => [10] + RowDec.Signed(t, 8)
    case _ => [6]
  }

  lemma {:induction false} ShownApart(v: Value, w: Value)
    requires GroupKey.ClassOf(v) == GroupKey.Printed && GroupKey.ClassOf(w) == GroupKey.Printed && Shown(v) == Shown(w)
    ensures v == w || (v.Vector? && w.Vector?)
  {
    assert Shown(v)[0] == Shown(w)[0] && Shown(v)[1..] == Shown(w)[1..];
    Widths();
    match v
    case Blob(s) => assert Shown(v)[1..] == s && Shown(w)[1..] == w.data;
    case Date(d) =>
      RowDec.SignedRoundTrip(d, 4);
      RowDec.SignedRoundTrip(w.days, 4);
    case DateTime(t) =>
      RowDec.SignedRoundTrip(t, 8);
      RowDec.SignedRoundTrip(w.micros, 8);
    case Time(t) =>
      RowDec.SignedRoundTrip(t, 8);
      RowDec.SignedRoundTrip(w.t, 8);
    case Vector(_) =>
  }

  lemma {:induction false} KeysMatched(fold: bytes -> bytes, number: bytes -> u64)
    ensures EqualKeys.Matched(GroupKey.Keying(fold, FloatValue, Shown), Floats(),
                              Comparing.Reading(fold, number, _ => None, _ => None, _ => None))
  {
    var k := GroupKey.Keying(fold, FloatValue, Shown);
    forall v, w | GroupKey.ClassOf(v) == GroupKey.Printed && GroupKey.ClassOf(w) == GroupKey.Printed
                  && k.debug(v) == k.debug(w)
      ensures v == w || (v.Vector? && w.Vector?)
    {
      ShownApart(v, w);
    }
  }

  // ------------------------------------------------------------------- aggregations

  /** Counting the rows of each group, however rows are grouped. */
  function Counting(key: AggSpill.Row -> bytes): GroupBy.Agg<int> {
    GroupBy.Agg(key, key, _ => 1, (x, y) => x + y)
  }

  lemma {:induction false} CountingLawful(key: AggSpill.Row -> bytes)
    ensures GroupBy.Lawful(Counting(key))
  {
  }

  ghost function Occurrences(key: AggSpill.Row -> bytes, rows: seq<AggSpill.Row>, k: bytes): nat {
    |set i | 0 <= i < |rows| && key(rows[i]) == k|
  }

  /** The count of each group is how many rows have its key, and there is a group for every key of a row. */
  lemma {:induction false} CountingCounts(key: AggSpill.Row -> bytes, rows: seq<AggSpill.Row>, k: bytes)
    ensures
      var totals := GroupBy.Totals(Counting(key), rows);
      if k in totals then totals[k] == Occurrences(key, rows, k) > 0 else Occurrences(key, rows, k) == 0
  {
    if rows != [] {
      var n := |rows| - 1;
      CountingCounts(key, rows[..n], k);
      var before := set i | 0 <= i < n && key(rows[..n][i]) == k;
      var now := set i | 0 <= i < |rows| && key(rows[i]) == k;
      assert now == before + (if key(rows[n]) == k then {n} else {});
    }
  }

  // ------------------------------------------------------------------------ indexes

  /** One entry a row, that of its key. */
  function OneEntry(): CollMig.TableDef {
    CollMig.TableDef(true, _ => false, _ => None, (row, k) => map[k := k])
  }

  lemma {:induction false} OneEntryPoints(t: CollMig.Table)
    requires t.index == map k | k in t.rows :: k
    ensures CollMig.Pointing(OneEntry()) && CollMig.Migrated(OneEntry(), t)
  {
    forall ik | ik in t.index
      ensures exists k | k in t.rows.Keys :: CollMig.Owns(OneEntry(), t.rows, k, ik, t.index[ik])
    {
      assert CollMig.Owns(OneEntry(), t.rows, ik, ik, t.index[ik]);
    }
  }
}
