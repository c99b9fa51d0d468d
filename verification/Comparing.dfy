/** How values compare (crates/elyra-core/src/value.rs). */
module Comparing {
  import opened Wrappers
  import opened Bytes
  import opened Values
  import opened Digits
  import opened Decimals
  import opened Products
  import KeyEnc

  /**
   * What the engine leaves to the hardware and the standard library. Finite floats are reals: `value` of bits,
   * `negate` of bits, the float of an integer, the bits a text `units / 10^scale` parses to, and the bits a decimal
   * divides out to. `others`: how a pair that is not two numbers compares. `truth`: whether a value that is no number
   * and not NULL counts as true.
   */
  datatype Conversions = Conversions(
    value: u64 -> real,
    negate: u64 -> u64,
    ofInt: int -> real,
    parse: (nat, nat) -> u64,
    ofDecimal: (int, nat) -> u64,
    others: (Value, Value) -> Option<int>,
    truth: Value -> bool)

  const EXACT := 0x20_0000_0000_0000
  const I64_END := 0x8000_0000_0000_0000
  const U64_END := 0x1_0000_0000_0000_0000
  const I128_END := 0x8000_0000_0000_0000_0000_0000_0000_0000

  /**
   * Integers convert in order, symmetrically and up to 2^53 exactly, as do decimals without places; signs flip as
   * they should; a whole number parses as it converts.
   */
  ghost predicate Sound(cv: Conversions) {
    && (forall i | -EXACT <= i <= EXACT :: cv.ofInt(i) == i as real)
    && (forall i | -EXACT <= i <= EXACT :: cv.value(cv.ofDecimal(i, 0)) == i as real)
    && (forall i, j | -I64_END <= i <= j < U64_END :: cv.ofInt(i) <= cv.ofInt(j))
    && (forall i | 0 <= i <= I64_END :: cv.ofInt(-i) == -cv.ofInt(i))
    && (forall b: u64 :: cv.value(cv.negate(b)) == -cv.value(b))
    && (forall u, s :: cv.value(cv.ofDecimal(-u, s)) == -cv.value(cv.ofDecimal(u, s)))
    && (forall n: nat | n < U64_END :: cv.value(cv.parse(n, 0)) == cv.ofInt(n))
  }

  /** `Value::as_f64`. */
  function AsF64(cv: Conversions, v: Value): Option<real> {
    match v
    case Int(i) => Some(cv.ofInt(i))
    case UInt(u) => Some(cv.ofInt(u))
    case Float(bits) => Some(cv.value(bits))
    case Bool(b) => Some(if b then 1.0 else 0.0)
    case Decimal(u, s) => Some(cv.value(cv.ofDecimal(u, s)))
    case _ => None
  }

  predicate IsNumber(v: Value) {
    v.Int? || v.UInt? || v.Float? || v.Bool? || v.Decimal?
  }

  function SignOf(a: int, b: int): int {
    if a < b then -1 else if a == b then 0 else 1
  }

  function RealSign(a: real, b: real): int {
    if a < b then -1 else if a == b then 0 else 1
  }

  function BytesSign(a: bytes, b: bytes): int {
    if a == b then 0 else if Less(a, b) then -1 else 1
  }

  // -------------------------------------------------------------------- decimals

  /** Saturating 128-bit results. */
  function Saturated(n: int): i128 {
    if n < MIN then MIN else if n > MAX then MAX else n
  }

  /** Units written at a scale `places` places wider, saturating. */
  function Widen(units: i128, places: nat): i128 {
    Saturated(units * Saturated(Pow10(places)))
  }

  /** Two decimals at their common scale; what does not fit saturates. */
  function DecimalSign(u1: i128, s1: nat, u2: i128, s2: nat): int {
    var s := Max(s1, s2);
    SignOf(Widen(u1, s - s1), Widen(u2, s - s2))
  }

  lemma {:induction false} WidenNothing(units: i128)
    ensures Widen(units, 0) == units
  {
    assert Pow10(0) == 1;
  }

  /** Widening is exact where the result fits. */
  lemma {:induction false} WidenFits(units: i128, places: nat)
    requires Fits(units * Pow10(places))
    ensures Widen(units, places) == units * Pow10(places)
  {
    PowersThatFit(places);
    if places > 38 && units != 0 {
      TooWide(units, places);
    }
  }

  lemma {:induction false} TooWide(units: i128, places: nat)
    requires places > 38 && units != 0
    ensures !Fits(units * Pow10(places))
  {
    PowersGrow(39, places);
    Pow39();
    Beyond(units, Pow10(places));
  }

  lemma {:induction false} Beyond(u: int, p: int)
    requires u != 0 && p > 0 - MIN
    ensures !Fits(u * p)
  {
    if u > 0 { Scale(1, u, p); } else { Scale(u, -1, p); }
  }

  lemma {:induction false} Pow39()
    ensures Pow10(39) > 0 - MIN
  {
    PowersThatFit(39);
  }

  // -------------------------------------------------------------------- numbers

  /** Integers compare exactly, two decimals at their common scale, any other two numbers as floats. */
  function NumberSign(cv: Conversions, a: Value, b: Value): (sign: int)
    requires IsNumber(a) && IsNumber(b)
    ensures -1 <= sign <= 1
  {
    if Integral(a) && Integral(b) then SignOf(IntegerOf(a), IntegerOf(b))
    else if a.Decimal? && b.Decimal? then DecimalSign(a.units, a.scale, b.units, b.scale)
    else RealSign(AsF64(cv, a).value, AsF64(cv, b).value)
  }

  // ------------------------------------------------------------------ all values

  /** How texts read: folded, as a leading number, as a date, a datetime or a time of day. */
  datatype Reading = Reading(
    fold: bytes -> bytes,
    number: bytes -> u64,
    date: bytes -> Option<i32>,
    datetime: bytes -> Option<i64>,
    time: bytes -> Option<i64>)

  const DAY_MICROS := 86_400_000_000

  /** 64-bit wrap-around. */
  function Wrapped(n: int): i64 {
    (n + I64_END) % U64_END - I64_END
  }

  function ToDays(rd: Reading, v: Value): Option<int> {
    match v
    case Date(d) => Some(d)
    case DateTime(m) => Some(m / DAY_MICROS)
    case Int(i) => Some(i)
    case Text(s) =>
      if rd.date(s).Some? then Some(rd.date(s).value)
      else if rd.datetime(s).Some? then Some(rd.datetime(s).value / DAY_MICROS) else None
    case _ => None
  }

  function ToMicros(rd: Reading, v: Value): Option<int> {
    match v
    case DateTime(t) => Some(t)
    case Date(d) => Some(Wrapped(d * DAY_MICROS))
    case Int(i) => Some(i)
    case Text(s) => if rd.datetime(s).Some? then Some(rd.datetime(s).value) else None
    case _ => None
  }

  function ToMicrosOfDay(rd: Reading, v: Value): Option<int> {
    match v
    case Time(t) => Some(t)
    case Text(s) => if rd.time(s).Some? then Some(rd.time(s).value) else None
    case _ => None
  }

  /** `Value::as_mysql_f64`: a text counts as its leading number. */
  function AsNumber(cv: Conversions, rd: Reading, v: Value): Option<real> {
    if v.Text? || v.Json? then Some(cv.value(rd.number(v.s))) else AsF64(cv, v)
  }

  function Zip(a: Option<int>, b: Option<int>): Option<int> {
    if a.Some? && b.Some? then Some(SignOf(a.value, b.value)) else None
  }

  function AsFloats(cv: Conversions, rd: Reading, a: Value, b: Value): Option<int> {
    match (AsNumber(cv, rd, a), AsNumber(cv, rd, b))
    case (Some(x), Some(y)) => Some(RealSign(x, y))
    case _ => None
  }

  predicate IsText(v: Value) {
    v.Text? || v.Json?
  }

  /** A text against a JSON text is compared the other way round. */
  function TextSign(a: Value, b: Value, f: bytes -> bytes): int
    requires IsText(a) && IsText(b)
  {
    if a.Text? && b.Json? then BytesSign(f(b.s), f(a.s)) else BytesSign(f(a.s), f(b.s))
  }

  /** `Value::compare_coll`: the sign, or `None` for NULL and for incomparable kinds. */
  function Compare(cv: Conversions, rd: Reading, a: Value, b: Value, coll: Collation): Option<int> {
    if a.Null? || b.Null? then None
    else if coll == Bin && IsText(a) && IsText(b) then Some(TextSign(a, b, (s: bytes) => s))
    else if a.Date? || b.Date? then Zip(ToDays(rd, a), ToDays(rd, b))
    else if a.DateTime? || b.DateTime? then Zip(ToMicros(rd, a), ToMicros(rd, b))
    else if IsNumber(a) && IsNumber(b) then Some(NumberSign(cv, a, b))
    else if a.Decimal? || b.Decimal? then AsFloats(cv, rd, a, b)
    else if a.Time? || b.Time? then Zip(ToMicrosOfDay(rd, a), ToMicrosOfDay(rd, b))
    else if IsText(a) && IsText(b) then Some(TextSign(a, b, rd.fold))
    else if a.Blob? && b.Blob? then Some(BytesSign(a.data, b.data))
    else if a.Blob? && IsText(b) then Some(BytesSign(a.data, b.s))
    else if IsText(a) && b.Blob? then Some(BytesSign(a.s, b.data))
    else AsFloats(cv, rd, a, b)
  }

  ghost predicate Equal(cv: Conversions, rd: Reading, a: Value, b: Value) {
    Compare(cv, rd, a, b, Ci) == Some(0)
  }

  lemma {:induction false} BytesSignReverses(a: bytes, b: bytes)
    ensures BytesSign(a, b) == -BytesSign(b, a)
  {
    LessTotal(a, b);
    if Less(a, b) {
      LessAsymmetric(a, b);
    }
  }

  /** A text and a JSON text, in one order or the other. */
  predicate Mixed(a: Value, b: Value) {
    (a.Text? && b.Json?) || (a.Json? && b.Text?)
  }

  lemma {:induction false} TextSwap(a: Value, b: Value, f: bytes -> bytes)
    requires IsText(a) && IsText(b)
    ensures TextSign(b, a, f) == -TextSign(a, b, f) <==> !Mixed(a, b) || TextSign(a, b, f) == 0
  {
    BytesSignReverses(f(a.s), f(b.s));
  }

  lemma {:induction false} NumberSwap(cv: Conversions, a: Value, b: Value)
    requires IsNumber(a) && IsNumber(b)
    ensures NumberSign(cv, b, a) == -NumberSign(cv, a, b)
  {
  }

  lemma {:induction false} OtherSwap(cv: Conversions, rd: Reading, a: Value, b: Value, coll: Collation)
    requires !(IsText(a) && IsText(b)) && !(IsNumber(a) && IsNumber(b)) && Compare(cv, rd, a, b, coll).Some?
    ensures Compare(cv, rd, b, a, coll) == Some(-Compare(cv, rd, a, b, coll).value)
  {
    if a.Blob? && b.Blob? {
      BytesSignReverses(a.data, b.data);
    } else if a.Blob? && IsText(b) {
      BytesSignReverses(a.data, b.s);
    } else if IsText(a) && b.Blob? {
      BytesSignReverses(a.s, b.data);
    }
  }

  /**
   * Swapping the operands reverses the sign exactly when they are not a text and a JSON text that differ: those
   * compare alike in both orders.
   */
  lemma {:induction false} SwapReversesIff(cv: Conversions, rd: Reading, a: Value, b: Value, coll: Collation)
    requires Compare(cv, rd, a, b, coll).Some?
    ensures Compare(cv, rd, b, a, coll).Some?
    ensures Compare(cv, rd, b, a, coll).value == -Compare(cv, rd, a, b, coll).value
       <==> !Mixed(a, b) || Compare(cv, rd, a, b, coll).value == 0
  {
    if IsText(a) && IsText(b) {
      TextSwap(a, b, if coll == Bin then (s: bytes) => s else rd.fold);
    } else if IsNumber(a) && IsNumber(b) {
      NumberSwap(cv, a, b);
    } else {
      OtherSwap(cv, rd, a, b, coll);
    }
  }

  /** A text before a JSON text in byte order, found greater in both orders. */
  lemma {:induction false} MixedAlike(cv: Conversions, rd: Reading)
    ensures Compare(cv, rd, Text([1]), Json([2]), Bin) == Some(1)
            && Compare(cv, rd, Json([2]), Text([1]), Bin) == Some(1)
  {
    assert Less([1], [2]) && !Less([2], [1]);
  }

  // ---------------------------------------------------------------- the order it gives

  /** Minus one saturates to one more than the least number there is, not to that. */
  predicate Slips(units: i128, places: nat, other: i128) {
    units == -1 && places > 38 && other == MIN
  }

  /** What does not fit becomes the greatest number there is, or the least, or one more. */
  lemma {:induction false} WidenBeyond(units: i128, places: nat)
    requires !Fits(units * Pow10(places))
    ensures units != 0 && (units > 0 <==> units * Pow10(places) > MAX)
    ensures Widen(units, places) == if units > 0 then MAX else if units == -1 && places > 38 then MIN + 1 else MIN
  {
    PowersThatFit(places);
    var p := Pow10(places);
    if units > 0 { Scale(0, units, p); } else { Scale(units, 0, p); }
    if places > 38 {
      Pow39();
      PowersGrow(39, places);
      assert Saturated(p) == MAX;
      if units > 0 { Scale(1, units, MAX); } else if units < -1 { Scale(units, -2, MAX); }
    }
  }

  /** Widening keeps the side of every other number, unless it slips. */
  lemma {:induction false} WidenSides(units: i128, places: nat, other: i128)
    ensures Widen(units, places) < other ==> units * Pow10(places) < other
    ensures Slips(units, places, other) ==> Widen(units, places) > other && units * Pow10(places) < other
    ensures Widen(units, places) > other ==> units * Pow10(places) > other || Slips(units, places, other)
  {
    if Fits(units * Pow10(places)) {
      WidenFits(units, places);
      if Slips(units, places, other) { TooWide(units, places); }
    } else {
      WidenBeyond(units, places);
    }
  }

  lemma {:induction false} CommonScale(u1: int, s1: nat, u2: int, s2: nat)
    requires s1 <= s2
    ensures u1 * Pow10(s2 - s1) < u2 <==> u1 * Pow10(s2) < u2 * Pow10(s1)
    ensures u1 * Pow10(s2 - s1) > u2 <==> u1 * Pow10(s2) > u2 * Pow10(s1)
  {
    Pow10Add(s2 - s1, s1);
    var w, p := u1 * Pow10(s2 - s1), Pow10(s1);
    assert u1 * (Pow10(s2 - s1) * p) == w * p;
    if w < u2 {
      ScaleStrict(w, u2, p);
    } else if w > u2 {
      ScaleStrict(u2, w, p);
    }
  }

  /** A decimal with 39 places or more that holds the least number there is, and minus one with that many fewer. */
  predicate Misplaced(u1: i128, s1: nat, u2: i128, s2: nat) {
    (s1 <= s2 && Slips(u1, s2 - s1, u2)) || (s2 <= s1 && Slips(u2, s1 - s2, u1))
  }

  /**
   * A decimal found less is less and one found greater is greater, whatever saturates, exactly if they are not such a
   * pair; and if nothing saturates, one that is less or greater is found so.
   */
  lemma {:induction false} DecimalOrderIff(u1: i128, s1: nat, u2: i128, s2: nat)
    ensures
      var o, x, y := DecimalSign(u1, s1, u2, s2), u1 * Pow10(s2), u2 * Pow10(s1);
      && ((o < 0 ==> x < y) && (o > 0 ==> x > y) <==> !Misplaced(u1, s1, u2, s2))
      && (Fits(u1 * Pow10(Max(s1, s2) - s1)) && Fits(u2 * Pow10(Max(s1, s2) - s2)) ==>
            (o < 0 <==> x < y) && (o > 0 <==> x > y))
  {
    if s1 <= s2 {
      WidenNothing(u2);
      CommonScale(u1, s1, u2, s2);
      WidenSides(u1, s2 - s1, u2);
      if Fits(u1 * Pow10(s2 - s1)) { WidenFits(u1, s2 - s1); }
    } else {
      WidenNothing(u1);
      CommonScale(u2, s2, u1, s1);
      WidenSides(u2, s1 - s2, u1);
      if Fits(u2 * Pow10(s1 - s2)) { WidenFits(u2, s1 - s2); }
    }
  }

  /** Minus one is found greater than -2^127 at scale 39, which is greater. */
  lemma {:induction false} MisplacedPair(cv: Conversions, rd: Reading)
    ensures Compare(cv, rd, Decimal(-1, 0), Decimal(MIN, 39), Ci) == Some(1) && -1 * Pow10(39) < MIN * Pow10(0)
  {
    WidenSides(-1, 39, MIN);
    WidenNothing(MIN);
    assert Pow10(0) == 1;
  }

  /** Values of one kind compare as SQL orders them: less, equal or neither. */
  lemma {:induction false} CompareIsSqlOrder(cv: Conversions, rd: Reading, a: Value, b: Value, coll: Collation)
    requires KeyEnc.SameKind(a, b)
    ensures Compare(cv, rd, a, b, coll).Some?
    ensures Compare(cv, rd, a, b, coll).value < 0 <==> KeyEnc.SqlLess(a, b, coll, rd.fold)
    ensures Compare(cv, rd, a, b, coll).value == 0 <==> KeyEnc.SqlEqual(a, b, coll, rd.fold)
  {
    if a.Decimal? {
      WidenNothing(a.units);
      WidenNothing(b.units);
    }
    if a.Text? || a.Json? {
      LessIrreflexive(KeyEnc.Keyed(a.s, coll, rd.fold));
    }
  }

  /** Signed and unsigned integers compare as integers. */
  lemma {:induction false} CompareIntegers(cv: Conversions, rd: Reading, a: Value, b: Value, coll: Collation)
    requires (a.Int? || a.UInt?) && (b.Int? || b.UInt?)
    ensures
      var x: int, y: int := if a.Int? then a.i else a.u, if b.Int? then b.i else b.u;
      && Compare(cv, rd, a, b, coll).Some?
      && (Compare(cv, rd, a, b, coll).value < 0 <==> x < y) && (Compare(cv, rd, a, b, coll).value > 0 <==> x > y)
  {
  }

  /** Any other two numbers, two decimals apart, compare as their floats. */
  lemma {:induction false} CompareFloats(cv: Conversions, rd: Reading, a: Value, b: Value, coll: Collation, x: real,
                                         y: real)
    requires AsF64(cv, a) == Some(x) && AsF64(cv, b) == Some(y)
    requires !(a.Decimal? && b.Decimal?) && !((a.Int? || a.UInt?) && (b.Int? || b.UInt?))
    ensures Compare(cv, rd, a, b, coll).Some?
    ensures Compare(cv, rd, a, b, coll).value < 0 <==> x < y
    ensures Compare(cv, rd, a, b, coll).value > 0 <==> x > y
  {
  }

  /** A datetime compares with a date as the day it falls on, which runs for 24 hours from midnight. */
  lemma {:induction false} CompareDay(cv: Conversions, rd: Reading, d: i32, m: i64, coll: Collation)
    ensures InDay(Compare(cv, rd, Date(d), DateTime(m), coll), d, m)
  {
  }

  /** The sign of a comparison of a day with the day of a moment. */
  ghost predicate InDay(o: Option<int>, d: int, m: int) {
    var day := 24 * 60 * 60 * 1_000_000;
    o.Some? && (o.value < 0 <==> (d + 1) * day <= m) && (o.value > 0 <==> m < d * day)
  }

  /** Bytes compare in byte order, with bytes and with the bytes of a text. */
  lemma {:induction false} CompareBytes(cv: Conversions, rd: Reading, x: bytes, y: bytes, coll: Collation)
    ensures forall a, b | a == Blob(x) && b in {Blob(y), Text(y), Json(y)} ::
              && Compare(cv, rd, a, b, coll).Some? && (Compare(cv, rd, a, b, coll).value < 0 <==> Less(x, y))
              && (Compare(cv, rd, a, b, coll).value == 0 <==> x == y)
    ensures forall a, b | a in {Text(x), Json(x)} && b == Blob(y) ::
              && Compare(cv, rd, a, b, coll).Some? && (Compare(cv, rd, a, b, coll).value < 0 <==> Less(x, y))
              && (Compare(cv, rd, a, b, coll).value == 0 <==> x == y)
  {
    LessIrreflexive(x);
  }

  /** The sign of a comparison of two integers. */
  ghost predicate Ordered(o: Option<int>, x: int, y: int) {
    o.Some? && (o.value < 0 <==> x < y) && (o.value > 0 <==> x > y)
  }

  /**
   * A text is read as what it is compared with: as a day beside a date, as a moment beside a datetime, as a time of day
   * beside a time; it does not compare if it is none.
   */
  lemma {:induction false} CompareReads(cv: Conversions, rd: Reading, s: bytes, d: i32, m: i64, t: i64, coll: Collation)
    ensures match rd.date(s)
            case Some(x) => Ordered(Compare(cv, rd, Date(d), Text(s), coll), d, x)
            case None =>
              match rd.datetime(s)
              case Some(x) => InDay(Compare(cv, rd, Date(d), Text(s), coll), d, x)
              case None => Compare(cv, rd, Date(d), Text(s), coll) == None
    ensures match rd.datetime(s)
            case Some(x) => Ordered(Compare(cv, rd, DateTime(m), Text(s), coll), m, x)
            case None => Compare(cv, rd, DateTime(m), Text(s), coll) == None
    ensures match rd.time(s)
            case Some(x) => Ordered(Compare(cv, rd, Time(t), Text(s), coll), t, x)
            case None => Compare(cv, rd, Time(t), Text(s), coll) == None
  {
  }

  /** An integer beside a date counts as days, beside a datetime as microseconds; true counts as one, false as zero. */
  lemma {:induction false} CompareCounts(cv: Conversions, rd: Reading, d: i32, m: i64, i: i64, x: bool, coll: Collation)
    ensures Ordered(Compare(cv, rd, Date(d), Int(i), coll), d, i)
    ensures Ordered(Compare(cv, rd, DateTime(m), Int(i), coll), m, i)
    ensures Sound(cv) ==> Ordered(Compare(cv, rd, Bool(x), Int(i), coll), if x then 1 else 0, i)
  {
    if Sound(cv) {
      assert cv.ofInt(0) == 0.0 && cv.ofInt(1) == 1.0 && cv.ofInt(-1) == -1.0 && cv.ofInt(2) == 2.0;
      assert i < 0 ==> cv.ofInt(i) <= cv.ofInt(-1);
      assert i > 1 ==> cv.ofInt(2) <= cv.ofInt(i);
    }
  }

  /** A text or a JSON text beside a number counts as its leading number. */
  lemma {:induction false} CompareLeading(cv: Conversions, rd: Reading, a: Value, b: Value, coll: Collation, x: real)
    requires AsF64(cv, a) == Some(x) && (b.Text? || b.Json?)
    ensures
      var o, y := Compare(cv, rd, a, b, coll), cv.value(rd.number(b.s));
      o.Some? && (o.value < 0 <==> x < y) && (o.value > 0 <==> x > y)
  {
  }
}
