/** Comparing equal and having one grouping key (crates/elyra-core/src/value.rs). */
module EqualKeys {
  import opened Bytes
  import opened Values
  import opened Digits
  import opened GroupKey
  import opened Products
  import Comparing
  import Decimals

  /**
   * Keys and comparisons read values alike: one fold, one value per float (and one bit pattern per value but zero),
   * and printed forms that tell all but vectors apart.
   */
  ghost predicate Matched(k: Keying, cv: Comparing.Conversions, rd: Comparing.Reading) {
    && (forall s :: rd.fold(s) == k.fold(s))
    && (forall b: u64 :: k.value(b) == cv.value(b))
    && k.value(0) == 0.0 && (forall b: u64, c: u64 | k.value(b) == k.value(c) :: b == c || k.value(b) == 0.0)
    && (forall v, w | ClassOf(v) == Printed && ClassOf(w) == Printed && k.debug(v) == k.debug(w) ::
          v == w || (v.Vector? && w.Vector?))
  }

  // -------------------------------------------------------------------- decimals

  /** The decimal with fewer places can be widened to the other's, or does not saturate to it. */
  predicate ToldApart(u1: i128, s1: nat, u2: i128, s2: nat) {
    if s1 <= s2 then Decimals.Fits(u1 * Pow10(s2 - s1)) || Comparing.Widen(u1, s2 - s1) != u2
    else Decimals.Fits(u2 * Pow10(s1 - s2)) || Comparing.Widen(u2, s1 - s2) != u1
  }

  lemma {:induction false} SameAtWider(u1: int, s1: nat, u2: int, s2: nat)
    requires s1 <= s2
    ensures u1 * Pow10(s2) == u2 * Pow10(s1) <==> u1 * Pow10(s2 - s1) == u2
  {
    Pow10Add(s2 - s1, s1);
    Associate(u1, Pow10(s2 - s1), Pow10(s1));
    if u1 * Pow10(s2) == u2 * Pow10(s1) {
      Cancel(u1 * Pow10(s2 - s1), u2, Pow10(s1));
    }
  }

  lemma {:induction false} WiderDecimals(u1: i128, s1: nat, u2: i128, s2: nat)
    requires s1 <= s2
    ensures u1 * Pow10(s2) == u2 * Pow10(s1) ==> Comparing.Widen(u1, s2 - s1) == u2
    ensures Comparing.Widen(u1, s2 - s1) == u2 && ToldApart(u1, s1, u2, s2) ==> u1 * Pow10(s2) == u2 * Pow10(s1)
    ensures !ToldApart(u1, s1, u2, s2) ==> u1 * Pow10(s2) != u2 * Pow10(s1)
  {
    SameAtWider(u1, s1, u2, s2);
    if Decimals.Fits(u1 * Pow10(s2 - s1)) {
      Comparing.WidenFits(u1, s2 - s1);
    }
  }

  /** Decimals that are one number compare equal; decimals that compare equal are one number exactly when told apart. */
  lemma {:induction false} DecimalsEqualIff(u1: i128, s1: byte, u2: i128, s2: byte)
    ensures u1 * Pow10(s2) == u2 * Pow10(s1) ==> Comparing.DecimalSign(u1, s1, u2, s2) == 0
    ensures (Comparing.DecimalSign(u1, s1, u2, s2) == 0 ==> u1 * Pow10(s2) == u2 * Pow10(s1))
       <==> ToldApart(u1, s1, u2, s2)
  {
    Comparing.WidenNothing(u1);
    Comparing.WidenNothing(u2);
    if s1 <= s2 {
      WiderDecimals(u1, s1, u2, s2);
    } else {
      WiderDecimals(u2, s2, u1, s1);
    }
  }

  // ------------------------------------------------------------------ kind by kind

  lemma {:induction false} DecimalKeys(k: Keying, cv: Comparing.Conversions, rd: Comparing.Reading, v: Value, w: Value)
    requires v.Decimal? && w.Decimal?
    ensures KeyOf(k, v) == KeyOf(k, w) ==> Comparing.Equal(cv, rd, v, w)
    ensures (Comparing.Equal(cv, rd, v, w) ==> KeyOf(k, v) == KeyOf(k, w))
       <==> ToldApart(v.units, v.scale, w.units, w.scale)
  {
    DecimalKeyIff(k, v.units, v.scale, w.units, w.scale);
    DecimalsEqualIff(v.units, v.scale, w.units, w.scale);
    assert v == Decimal(v.units, v.scale) && w == Decimal(w.units, w.scale);
  }

  lemma {:induction false} IntegerKeys(k: Keying, cv: Comparing.Conversions, rd: Comparing.Reading, v: Value, w: Value)
    requires ClassOf(v) == Integer && ClassOf(w) == Integer
    ensures KeyOf(k, v) == KeyOf(k, w) <==> Comparing.Equal(cv, rd, v, w)
  {
    IntegerKeyIff(k, v, w);
  }

  lemma {:induction false} TextKeys(k: Keying, cv: Comparing.Conversions, rd: Comparing.Reading, v: Value, w: Value)
    requires Matched(k, cv, rd) && ClassOf(v) == Textual && ClassOf(w) == Textual
    ensures KeyOf(k, v) == KeyOf(k, w) <==> Comparing.Equal(cv, rd, v, w)
  {
    TextKeyIff(k, v, w, Ci);
    assert rd.fold(v.s) == k.fold(v.s) && rd.fold(w.s) == k.fold(w.s);
  }

  lemma {:induction false} FloatKeys(k: Keying, cv: Comparing.Conversions, rd: Comparing.Reading, v: Value, w: Value)
    requires Matched(k, cv, rd) && v.Float? && w.Float?
    ensures KeyOf(k, v) == KeyOf(k, w) <==> Comparing.Equal(cv, rd, v, w)
  {
    var x, y := Canonical(k, v.bits), Canonical(k, w.bits);
    assert KeyOf(k, v)[1..] == RowDec.LittleEndian(x, 8) && KeyOf(k, w)[1..] == RowDec.LittleEndian(y, 8);
    Widths();
    if KeyOf(k, v) == KeyOf(k, w) {
      LittleInjective(x, y, 8);
    }
    assert k.value(v.bits) == cv.value(v.bits) && k.value(w.bits) == cv.value(w.bits);
  }

  lemma {:induction false} PrintedKeys(k: Keying, cv: Comparing.Conversions, rd: Comparing.Reading, v: Value, w: Value)
    requires Matched(k, cv, rd) && ClassOf(v) == Printed && ClassOf(w) == Printed && !(v.Vector? && w.Vector?)
    ensures KeyOf(k, v) == KeyOf(k, w) <==> v == w
    ensures v == w ==> Comparing.Equal(cv, rd, v, w)
    ensures SameKind(v, w) && Comparing.Equal(cv, rd, v, w) ==> v == w
  {
    if KeyOf(k, v) == KeyOf(k, w) {
      SizedInjective(5, k.debug(v), k.debug(w));
    }
  }

  // ------------------------------------------------------------------- all values

  predicate SameKind(v: Value, w: Value) {
    || (v.Blob? && w.Blob?) || (v.Vector? && w.Vector?) || (v.Date? && w.Date?)
    || (v.DateTime? && w.DateTime?) || (v.Time? && w.Time?)
  }

  /** Of one kind, and if decimals told apart. */
  predicate Kindred(v: Value, w: Value) {
    && ClassOf(v) == ClassOf(w) && (ClassOf(v) == Printed ==> SameKind(v, w))
    && (v.Decimal? && w.Decimal? ==> ToldApart(v.units, v.scale, w.units, w.scale))
  }

  /** Values that compare equal have one key exactly when they are kindred. */
  lemma {:induction false} EqualKeysIff(k: Keying, cv: Comparing.Conversions, rd: Comparing.Reading, v: Value, w: Value)
    requires Matched(k, cv, rd) && Comparing.Equal(cv, rd, v, w)
    ensures KeyOf(k, v) == KeyOf(k, w) <==> Kindred(v, w)
  {
    if ClassOf(v) != ClassOf(w) {
      if KeyColl(k, v, Ci) == KeyColl(k, w, Ci) { ClassesApart(k, v, w, Ci); }
    } else {
      match ClassOf(v)
      case Truth =>
      case Integer => IntegerKeys(k, cv, rd, v, w);
      case Floating => FloatKeys(k, cv, rd, v, w);
      case Textual => TextKeys(k, cv, rd, v, w);
      case Exact => DecimalKeys(k, cv, rd, v, w);
      case Printed => PrintedKeys(k, cv, rd, v, w);
    }
  }

  /** The other way round there is no exception: values with one key compare equal, NULLs and vectors apart. */
  lemma {:induction false} KeysMeanEqual(k: Keying, cv: Comparing.Conversions, rd: Comparing.Reading, v: Value,
                                         w: Value)
    requires Matched(k, cv, rd) && KeyOf(k, v) == KeyOf(k, w) && !v.Null? && !v.Vector?
    ensures Comparing.Equal(cv, rd, v, w)
  {
    assert KeyColl(k, v, Ci) == KeyOf(k, v) && KeyColl(k, w, Ci) == KeyOf(k, w);
    ClassesApart(k, v, w, Ci);
    match ClassOf(v)
    case Truth => assert KeyOf(k, v)[1] == KeyOf(k, w)[1];
    case Integer => IntegerKeys(k, cv, rd, v, w);
    case Floating => FloatKeys(k, cv, rd, v, w);
    case Textual => TextKeys(k, cv, rd, v, w);
    case Exact => DecimalKeys(k, cv, rd, v, w);
    case Printed => PrintedKeys(k, cv, rd, v, w);
  }

  // -------------------------------------------------------------- equal, keyed apart

  /** One as an integer and one as a decimal. */
  lemma {:induction false} OneTwice(k: Keying, cv: Comparing.Conversions, rd: Comparing.Reading)
    requires Comparing.Sound(cv)
    ensures Comparing.Equal(cv, rd, Int(1), Decimal(1, 0)) && KeyOf(k, Int(1)) != KeyOf(k, Decimal(1, 0))
  {
    assert cv.ofInt(1) == 1.0 && cv.value(cv.ofDecimal(1, 0)) == 1.0;
    assert KeyOf(k, Int(1))[0] == 1 && KeyOf(k, Decimal(1, 0))[0] == 7;
  }

  /** An integer and a decimal that are not even the same number: past 2^53 they share a float. */
  lemma {:induction false} SharedFloat(k: Keying, cv: Comparing.Conversions, rd: Comparing.Reading)
    requires Comparing.Sound(cv) && cv.ofInt(Comparing.EXACT + 1) == cv.ofInt(Comparing.EXACT)
    ensures
      var v, w := Int(Comparing.EXACT + 1), Decimal(Comparing.EXACT, 0);
      Comparing.Equal(cv, rd, v, w) && KeyOf(k, v) != KeyOf(k, w)
  {
    var v, w := Int(Comparing.EXACT + 1), Decimal(Comparing.EXACT, 0);
    assert cv.value(cv.ofDecimal(Comparing.EXACT, 0)) == Comparing.EXACT as real == cv.ofInt(Comparing.EXACT);
    assert KeyOf(k, v)[0] == 1 && KeyOf(k, w)[0] == 7;
  }

  /** Two decimals, the first of which saturates to the second when it is given its place. */
  lemma {:induction false} SaturatedPair(k: Keying, cv: Comparing.Conversions, rd: Comparing.Reading)
    ensures
      var v, w := Decimal(100000000000000000000000000000000000000, 0), Decimal(Decimals.MAX, 1);
      Comparing.Equal(cv, rd, v, w) && KeyOf(k, v) != KeyOf(k, w)
  {
    var u: i128 := 100000000000000000000000000000000000000;
    assert Pow10(1) == 10;
    Comparing.WidenNothing(Decimals.MAX);
    assert Comparing.Widen(u, 1) == Decimals.MAX;
    DecimalKeys(k, cv, rd, Decimal(u, 0), Decimal(Decimals.MAX, 1));
  }
}
