/**
 * A migration that would finish, cut off after its first batch, cannot be finished by a later start
 * (crates/elyra-engine/src/collmig.rs).
 */
module Resuming {
  import opened Wrappers
  import opened Bytes
  import opened Values
  import opened Scan
  import opened CollMig

  // ------------------------------------------------------------- keys that are numbers

  const END := 0x1_0000

  function Num(i: nat): bytes
    requires i < END
  {
    [i / 256, i % 256]
  }

  predicate IsNum(k: bytes) {
    |k| == 2
  }

  function Val(k: bytes): (i: nat)
    requires IsNum(k)
    ensures i < END
  {
    var high: int, low: int := k[0], k[1];
    high * 256 + low
  }

  lemma {:induction false} NumVal(i: nat)
    requires i < END
    ensures IsNum(Num(i)) && Val(Num(i)) == i
  {
  }

  lemma {:induction false} ValNum(k: bytes)
    requires IsNum(k)
    ensures Num(Val(k)) == k
  {
  }

  lemma {:induction false} NumOrder(i: nat, j: nat)
    requires i < END && j < END
    ensures Less(Num(i), Num(j)) <==> i < j
    ensures Num(i) == Num(j) <==> i == j
  {
    NumVal(i);
    NumVal(j);
    assert Num(i)[1..] == [i % 256] && Num(j)[1..] == [j % 256];
    assert Less([i % 256], [j % 256]) <==> i % 256 < j % 256 by {
      assert [i % 256][1..] == [] && [j % 256][1..] == [];
    }
  }

  /** As many numbers as a batch holds, from `lo` on. */
  function Span(lo: nat): (s: seq<bytes>)
    requires lo + BATCH <= END
    ensures |s| == BATCH && forall i | 0 <= i < BATCH :: s[i] == Num(lo + i)
  {
    seq(BATCH, i requires 0 <= i < BATCH => Num(lo + i))
  }

  /** All of them are there, after the cursor, and before them nothing is. */
  ghost predicate StartsAt(keys: set<bytes>, cursor: Option<bytes>, lo: nat)
    requires lo + BATCH <= END
  {
    && (forall i | lo <= i < lo + BATCH :: Num(i) in keys && After(cursor, Num(i)))
    && (forall k | k in keys && After(cursor, k) :: IsNum(k) && Val(k) >= lo)
  }

  lemma {:induction false} SpanHas(lo: nat, k: bytes)
    requires lo + BATCH <= END && IsNum(k) && lo <= Val(k) < lo + BATCH
    ensures k in Span(lo)
  {
    ValNum(k);
    assert Span(lo)[Val(k) - lo] == k;
  }

  lemma {:induction false} SpanIsBatch(keys: set<bytes>, cursor: Option<bytes>, lo: nat)
    requires lo + BATCH <= END && StartsAt(keys, cursor, lo)
    ensures IsBatch(BATCH, keys, cursor, Span(lo)) && Span(lo)[BATCH - 1] == Num(lo + BATCH - 1)
  {
    var s := Span(lo);
    forall i, j | 0 <= i < j < |s| ensures Less(s[i], s[j]) {
      NumOrder(lo + i, lo + j);
    }
    forall k | k in s ensures k in keys && After(cursor, k) {
      var i :| 0 <= i < BATCH && s[i] == k;
    }
    forall k | k in keys && After(cursor, k) && k !in s ensures Less(s[BATCH - 1], k) {
      ValNum(k);
      if Val(k) < lo + BATCH { SpanHas(lo, k); }
      NumOrder(lo + BATCH - 1, Val(k));
    }
  }

  lemma {:induction false} SpanIsCut(def: TableDef, rows: map<bytes, Row>, cursor: Option<bytes>, lo: nat)
    requires lo + BATCH <= END && StartsAt(KeysAt(def, rows, cursor), cursor, lo)
    ensures CutAfter(def, rows, cursor, Num(lo + BATCH - 1))
  {
    SpanIsBatch(KeysAt(def, rows, cursor), cursor, lo);
  }

  // ----------------------------------------------------------------------- the table

  const LAST := 2 * BATCH
  const AWAY := 60000
  const ASIDE := 60001

  /** The first row moves away, the last but one moves aside, and the last moves into its place. */
  function Target(i: nat): (t: nat)
    requires i <= LAST
    ensures t < END
  {
    if i == 0 then AWAY else if i == LAST - 1 then ASIDE else if i == LAST then LAST - 1 else i
  }

  function RowFor(i: nat): Row
    requires i <= LAST
  {
    [Blob(Num(Target(i)))]
  }

  ghost function Late(): map<bytes, Row> {
    map k: bytes | k in (set i | 0 <= i <= LAST :: Num(i)) && IsNum(k) && Val(k) <= LAST :: RowFor(Val(k))
  }

  lemma {:induction false} LateHas(k: bytes)
    ensures k in Late() <==> IsNum(k) && Val(k) <= LAST
    ensures k in Late() ==> Late()[k] == RowFor(Val(k)) && Place(CHAIN_DEF, k, Late()[k]) == Num(Target(Val(k)))
  {
    if IsNum(k) && Val(k) <= LAST { ValNum(k); }
  }

  /** The table after its first batch: the first row has moved. */
  ghost function Cut(): map<bytes, Row> {
    LateHas(Num(0));
    LateHas(Num(AWAY));
    Move(Late(), Num(0), Num(AWAY))
  }

  lemma {:induction false} CutHas(k: bytes)
    ensures k in Cut() <==> IsNum(k) && (1 <= Val(k) <= LAST || Val(k) == AWAY)
    ensures k in Cut() && Val(k) <= LAST ==>
              Cut()[k] == RowFor(Val(k)) && Place(CHAIN_DEF, k, Cut()[k]) == Num(Target(Val(k)))
    ensures k in Cut() && Val(k) == AWAY ==> Cut()[k] == RowFor(0) && Placed(CHAIN_DEF, k, Cut()[k])
  {
    LateHas(k);
    LateHas(Num(0));
    LateHas(Num(AWAY));
    if IsNum(k) { ValNum(k); }
  }

  // ------------------------------------------------------------ as long as it is not cut off

  /** Keys that are numbers from 1 to the last, and the one far away. */
  ghost predicate CutKeys(keys: set<bytes>) {
    forall k :: k in keys <==> IsNum(k) && (1 <= Val(k) <= LAST || Val(k) == AWAY)
  }

  /** A batch of these keys that starts after `lo - 1`. */
  lemma {:induction false} StartsAfter(keys: set<bytes>, lo: nat)
    requires CutKeys(keys) && 2 <= lo && lo + BATCH <= LAST + 1
    ensures StartsAt(keys, Some(Num(lo - 1)), lo)
  {
    forall i | lo <= i < lo + BATCH ensures Num(i) in keys && After(Some(Num(lo - 1)), Num(i)) {
      NumVal(i);
      NumOrder(lo - 1, i);
    }
    forall k | k in keys && After(Some(Num(lo - 1)), k) ensures Val(k) >= lo {
      ValNum(k);
      NumOrder(lo - 1, Val(k));
    }
  }

  lemma {:induction false} CutScanned()
    ensures Scanned(CHAIN_DEF, Late(), Some(Num(BATCH - 1)), Cut())
  {
    var cursor := Some(Num(BATCH - 1));
    forall k | k in Late() ensures RowAt(CHAIN_DEF, Late(), cursor, Cut(), k) {
      LateHas(k);
      ValNum(k);
      NumOrder(BATCH - 1, Val(k));
      NumVal(AWAY);
      CutHas(k);
      CutHas(Num(AWAY));
    }
    forall b | b in Cut() ensures b in KeysAt(CHAIN_DEF, Late(), cursor) {
      CutHas(b);
      ValNum(b);
      var k := if Val(b) == AWAY then Num(0) else b;
      NumVal(0);
      LateHas(k);
      NumOrder(BATCH - 1, Val(k));
      assert At(CHAIN_DEF, Late(), cursor, k) == b;
    }
  }

  lemma {:induction false} CutKeysOf()
    ensures CutKeys(Cut().Keys)
  {
    forall k ensures k in Cut().Keys <==> IsNum(k) && (1 <= Val(k) <= LAST || Val(k) == AWAY) {
      CutHas(k);
    }
  }

  lemma {:induction false} LateSpan()
    ensures StartsAt(Late().Keys, None, 0)
  {
    forall i | 0 <= i < BATCH ensures Num(i) in Late() {
      NumVal(i);
      LateHas(Num(i));
    }
    forall k | k in Late() ensures IsNum(k) { LateHas(k); }
  }

  lemma {:induction false} LateFirst()
    ensures CutAfter(CHAIN_DEF, Late(), None, Num(BATCH - 1))
  {
    StartKeys(CHAIN_DEF, Late());
    LateSpan();
    SpanIsCut(CHAIN_DEF, Late(), None, 0);
  }

  lemma {:induction false} LateSecond()
    ensures CutAfter(CHAIN_DEF, Late(), Some(Num(BATCH - 1)), Num(LAST - 1))
  {
    CutScanned();
    ScannedKeys(CHAIN_DEF, Late(), Some(Num(BATCH - 1)), Cut());
    CutKeysOf();
    StartsAfter(Cut().Keys, BATCH);
    SpanIsCut(CHAIN_DEF, Late(), Some(Num(BATCH - 1)), BATCH);
  }

  lemma {:induction false} TwoCuts(def: TableDef, rows: map<bytes, Row>, c: bytes, d: bytes)
    requires CutAfter(def, rows, None, c) && CutAfter(def, rows, Some(c), d)
    ensures CutsOf(def, rows, [c, d]) && CutsOf(def, rows, [c])
  {
    var one, two := [c], [c, d];
    assert one[..0] == [] && two[..0] == [] && two[..1] == [c];
  }

  lemma {:induction false} LateMovable()
    ensures Movable(CHAIN_DEF, Late())
  {
    LateFirst();
    LateSecond();
    TwoCuts(CHAIN_DEF, Late(), Num(BATCH - 1), Num(LAST - 1));
    var cuts := [Num(BATCH - 1), Num(LAST - 1)];
    forall j, k | j in Late() && k in Late() && j != k
      ensures Place(CHAIN_DEF, j, Late()[j]) != Place(CHAIN_DEF, k, Late()[k])
    {
      LateHas(j);
      LateHas(k);
      ValNum(j);
      ValNum(k);
      NumOrder(Target(Val(j)), Target(Val(k)));
    }
    forall k | k in Late() && !Placed(CHAIN_DEF, k, Late()[k]) ensures Vacated(CHAIN_DEF, Late(), cuts, k) {
      LateVacated(k, cuts);
    }
    forall k | k in Late() ensures CHAIN_DEF.home(Late()[k]).Some? { LateHas(k); }
    assert Clear(CHAIN_DEF, Late(), cuts);
  }

  lemma {:induction false} LateVacated(k: bytes, cuts: seq<bytes>)
    requires k in Late() && !Placed(CHAIN_DEF, k, Late()[k]) && Num(LAST - 1) in cuts
    ensures Vacated(CHAIN_DEF, Late(), cuts, k)
  {
    LateHas(k);
    ValNum(k);
    var j := Num(Target(Val(k)));
    NumVal(Target(Val(k)));
    LateHas(j);
    if j in Late() {
      NumOrder(LAST - 1, LAST);
      assert AtMost(j, Num(LAST - 1)) && Less(Num(LAST - 1), k);
    }
  }

  // ------------------------------------------------------------------- and once it was

  /** Nothing up to the first batch's new end moves again. */
  lemma {:induction false} CutStays()
    ensures Scanned(CHAIN_DEF, Cut(), Some(Num(BATCH)), Cut())
  {
    var cursor := Some(Num(BATCH));
    forall k | k in Cut() ensures At(CHAIN_DEF, Cut(), cursor, k) == k {
      CutHas(k);
      ValNum(k);
      NumOrder(BATCH, Val(k));
    }
    forall b | b in Cut() ensures b in KeysAt(CHAIN_DEF, Cut(), cursor) {
      assert At(CHAIN_DEF, Cut(), cursor, b) == b;
    }
  }

  lemma {:induction false} CutFirst()
    ensures CutAfter(CHAIN_DEF, Cut(), None, Num(BATCH))
  {
    StartKeys(CHAIN_DEF, Cut());
    FirstSpan();
    SpanIsCut(CHAIN_DEF, Cut(), None, 1);
  }

  lemma {:induction false} CutSecond()
    ensures CutAfter(CHAIN_DEF, Cut(), Some(Num(BATCH)), Num(LAST))
  {
    CutKeysOf();
    CutStays();
    ScannedKeys(CHAIN_DEF, Cut(), Some(Num(BATCH)), Cut());
    StartsAfter(Cut().Keys, BATCH + 1);
    SpanIsCut(CHAIN_DEF, Cut(), Some(Num(BATCH)), BATCH + 1);
  }

  /** The batches now end one row later. */
  lemma {:induction false} LaterCuts(cuts: seq<bytes>)
    requires CutsOf(CHAIN_DEF, Cut(), cuts)
    ensures |cuts| > 0 ==> cuts[0] == Num(BATCH)
    ensures |cuts| > 1 ==> cuts[1] == Num(LAST)
  {
    CutFirst();
    CutSecond();
    TwoCuts(CHAIN_DEF, Cut(), Num(BATCH), Num(LAST));
    var two := [Num(BATCH), Num(LAST)];
    var n := if |cuts| < 2 then |cuts| else 2;
    CutsAgree(CHAIN_DEF, Cut(), cuts, two, n);
    assert forall i | 0 <= i < n :: cuts[i] == cuts[..n][i] && two[i] == two[..n][i];
  }

  lemma {:induction false} FirstSpan()
    ensures StartsAt(Cut().Keys, None, 1)
  {
    CutKeysOf();
    forall i | 1 <= i < 1 + BATCH ensures Num(i) in Cut().Keys {
      NumVal(i);
    }
  }

  lemma {:induction false} CutNotMovable()
    ensures !Movable(CHAIN_DEF, Cut())
  {
    forall cuts | CutsOf(CHAIN_DEF, Cut(), cuts) ensures !Clear(CHAIN_DEF, Cut(), cuts) {
      var j, k := Num(LAST - 1), Num(LAST);
      forall c | c in cuts ensures !(AtMost(j, c) && Less(c, k)) {
        var m :| 0 <= m < |cuts| && cuts[m] == c;
        NeitherCut(cuts, m);
      }
      NumVal(LAST - 1);
      NumVal(LAST);
      NumOrder(LAST - 1, LAST);
      NumOrder(LAST - 1, ASIDE);
      CutHas(j);
      CutHas(k);
      assert !Vacated(CHAIN_DEF, Cut(), cuts, k);
    }
  }

  lemma {:induction false} NeitherCut(cuts: seq<bytes>, m: nat)
    requires CutsOf(CHAIN_DEF, Cut(), cuts) && m < |cuts|
    ensures !(AtMost(Num(LAST - 1), cuts[m]) && Less(cuts[m], Num(LAST)))
  {
    LaterCuts(cuts);
    if m == 0 {
      NumOrder(LAST - 1, BATCH);
    } else {
      NoneAfter(CHAIN_DEF, Cut(), cuts, 1, m);
      LessIrreflexive(Num(LAST));
      if Less(cuts[m], Num(LAST)) {
        LessAsymmetric(cuts[m], Num(LAST));
      }
    }
  }

  /**
   * Let alone, the migration of this table finishes. Cut off after its first batch it leaves a table whose batches end
   * elsewhere, and there the last row is blocked, at every later start.
   */
  lemma {:induction false} ResumeClashes()
    ensures Movable(CHAIN_DEF, Late())
    ensures CutsOf(CHAIN_DEF, Late(), [Num(BATCH - 1)]) && Scanned(CHAIN_DEF, Late(), Some(Num(BATCH - 1)), Cut())
    ensures LeftBy(CHAIN_DEF, Late(), Cut()) && !Movable(CHAIN_DEF, Cut())
  {
    LateMovable();
    LateFirst();
    LateSecond();
    TwoCuts(CHAIN_DEF, Late(), Num(BATCH - 1), Num(LAST - 1));
    CutScanned();
    LeftCut(CHAIN_DEF, Late(), [Num(BATCH - 1)], Cut());
    CutNotMovable();
  }
}
