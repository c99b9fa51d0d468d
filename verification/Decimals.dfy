/** Exact DECIMAL arithmetic (crates/elyra-core/src/value.rs, crates/elyra-engine/src/predicate.rs). */
module Decimals {
  import opened Wrappers
  import opened Digits
  import opened Products

  const MAX := 0x7fff_ffff_ffff_ffff_ffff_ffff_ffff_ffff
  const MIN := -0x8000_0000_0000_0000_0000_0000_0000_0000

  predicate Fits(n: int) {
    MIN <= n <= MAX
  }

  function Checked(n: int): Option<int> {
    if Fits(n) then Some(n) else None
  }

  function Abs(n: int): nat {
    if n >= 0 then n else -n
  }

  // --------------------------------------------------------- rounding half away from zero

  /** Division toward zero, and its remainder, which has the sign of the dividend. */
  function TDiv(n: int, d: int): int
    requires d != 0
  {
    if (n < 0) == (d < 0) then Abs(n) / Abs(d) else -(Abs(n) / Abs(d))
  }

  function TRem(n: int, d: int): int
    requires d != 0
  {
    if n >= 0 then Abs(n) % Abs(d) else -(Abs(n) % Abs(d))
  }

  /** `n / d` rounded to the nearest integer, halves away from zero. */
  function HalfAway(n: int, d: int): int
    requires d != 0
  {
    var q := (2 * Abs(n) + Abs(d)) / (2 * Abs(d));
    if (n < 0) == (d < 0) then q else -q
  }

  /** `q` is nearest to `n / d`, and of two nearest the one farther from zero. */
  ghost predicate Nearest(q: int, n: int, d: int)
    requires d != 0
  {
    && 2 * Abs(q * d - n) <= Abs(d)
    && (2 * Abs(q * d - n) == Abs(d) ==> Abs(q * d) > Abs(n))
  }

  lemma {:induction false} HalfAwayPositive(n: nat, d: nat)
    requires d > 0
    ensures
      var q, r := n / d, n % d;
      && HalfAway(n, d) == (if 2 * r >= d then q + 1 else q)
      && n == q * d + r && 0 <= r < d
  {
    var q, r := n / d, n % d;
    var h := if 2 * r >= d then q + 1 else q;
    assert 2 * n + d == 2 * (q * d) + 2 * r + d;
    assert h * (2 * d) == 2 * (h * d);
    assert (h + 1) * (2 * d) == 2 * (h * d) + 2 * d;
    if 2 * r >= d {
      assert h * d == q * d + d;
    }
    DivUnique(2 * n + d, 2 * d, h);
  }

  lemma {:induction false} NegatedProduct(h: int, d: int)
    ensures (-h) * d == -(h * d) && h * (-d) == -(h * d)
  {
  }

  /** Distances do not depend on the signs. */
  lemma {:induction false} SignedDistance(h: int, n: int, d: int)
    requires d != 0
    ensures
      var q := if (n < 0) == (d < 0) then h else -h;
      Abs(q * d - n) == Abs(h * Abs(d) - Abs(n)) && Abs(q * d) == Abs(h * Abs(d))
  {
    NegatedProduct(h, d);
  }

  lemma {:induction false} NearestPositive(n: nat, d: nat)
    requires d > 0
    ensures Nearest(HalfAway(n, d), n, d)
  {
    HalfAwayPositive(n, d);
    var q, r, h := n / d, n % d, HalfAway(n, d);
    if 2 * r >= d {
      assert h * d == q * d + d;
    }
  }

  /** The rounding formula is nearest, halves away from zero. */
  lemma {:induction false} HalfAwayIsNearest(n: int, d: int)
    requires d != 0
    ensures Nearest(HalfAway(n, d), n, d)
  {
    NearestPositive(Abs(n), Abs(d));
    SignedDistance(HalfAway(Abs(n), Abs(d)), n, d);
  }

  /** There is only one such integer. */
  lemma {:induction false} NearestIsUnique(p: int, q: int, n: int, d: int)
    requires d != 0 && Nearest(p, n, d) && Nearest(q, n, d)
    ensures p == q
  {
    if p < q {
      NotBoth(p, q, n, d);
    } else if q < p {
      NotBoth(q, p, n, d);
    }
  }

  lemma {:induction false} NotBoth(p: int, q: int, n: int, d: int)
    requires d != 0 && p < q
    ensures !(Nearest(p, n, d) && Nearest(q, n, d))
  {
    if Nearest(p, n, d) && Nearest(q, n, d) {
      var x, y := p * d, q * d;
      assert y - x == (q - p) * d;
      if d > 0 {
        Scale(1, q - p, d);
        if q - p >= 2 { Scale(2, q - p, d); }
        Tie(p, n, d, x, y);
      } else {
        NegatedProduct(q - p, d);
        Scale(1, q - p, -d);
        if q - p >= 2 { Scale(2, q - p, -d); }
        NegatedProduct(p, d);
        NegatedProduct(q, d);
        Tie(p, -n, -d, -x, -y);
      }
    }
  }

  /** Halfway between `p` and `p + 1`, one of the two is nearer to zero. */
  lemma {:induction false} Tie(p: int, n: int, d: int, x: int, y: int)
    requires d > 0 && x == p * d && y == x + d && 2 * n == x + y
    ensures Abs(x) <= Abs(n) || Abs(y) <= Abs(n)
  {
    if p >= 0 {
      Scale(0, p, d);
    } else {
      Scale(p, -1, d);
    }
  }

  lemma {:induction false} DivScale(x: nat, y: nat, k: nat)
    requires y > 0 && k > 0
    ensures y * k > 0 && (x * k) / (y * k) == x / y
  {
    var q := x / y;
    assert q * y <= x < (q + 1) * y;
    Scale(q * y, x, k);
    Scale(x + 1, (q + 1) * y, k);
    assert (q * y) * k == q * (y * k) && ((q + 1) * y) * k == (q + 1) * (y * k);
    Scale(1, y, k);
    DivUnique(x * k, y * k, q);
  }

  lemma {:induction false} ProductSign(n: int, k: nat)
    requires k > 0
    ensures Abs(n * k) == Abs(n) * k && (n * k < 0 <==> n < 0)
  {
    if n < 0 {
      Scale(n, -1, k);
    } else {
      Scale(0, n, k);
    }
  }

  /** Rounding a fraction does not depend on how it is written. */
  lemma {:induction false} HalfAwayScale(n: int, d: int, k: nat)
    requires d != 0 && k > 0
    ensures d * k != 0 && HalfAway(n * k, d * k) == HalfAway(n, d)
  {
    ProductSign(n, k);
    ProductSign(d, k);
    Scale(1, Abs(d), k);
    var a, b := Abs(n), Abs(d);
    assert 2 * (a * k) + b * k == (2 * a + b) * k && 2 * (b * k) == (2 * b) * k;
    DivScale(2 * a + b, 2 * b, k);
  }

  lemma {:induction false} HalfAwayWhole(n: int, d: nat)
    requires d > 0
    ensures HalfAway(n * d, d) == n
  {
    ProductSign(n, d);
    var a := Abs(n);
    DivUnique(a * d, d, a);
    HalfAwayPositive(a * d, d);
    assert (a * d) % d == a * d - ((a * d) / d) * d;
  }

  lemma {:induction false} HalfAwayOf(q: nat, r: nat, d: nat)
    requires r < d
    ensures HalfAway(q * d + r, d) == if 2 * r >= d then q + 1 else q
  {
    var n := q * d + r;
    DivUnique(n, d, q);
    HalfAwayPositive(n, d);
    assert n % d == n - (n / d) * d;
  }

  lemma {:induction false} HalfAwaySmaller(n: nat, d: nat)
    requires d >= 2
    ensures 0 <= HalfAway(n, d) <= n
  {
    HalfAwayPositive(n, d);
    var q, r := n / d, n % d;
    Scale(2, d, q);
  }

  lemma {:induction false} HalfAwaySign(n: int, d: int)
    requires d != 0
    ensures HalfAway(-n, -d) == HalfAway(n, d)
  {
    if n == 0 {
      assert Abs(d) / (2 * Abs(d)) == 0 by { DivUnique(Abs(d), 2 * Abs(d), 0); }
    }
  }

  // ------------------------------------------------------------------ the operations

  function DivRoundHalfAway(numerator: int, divisor: int): Option<int> {
    if divisor == 0 then None
    else
      var quotient :- Checked(TDiv(numerator, divisor));
      var remainder := TRem(numerator, divisor);
      if remainder == 0 then Some(quotient)
      else
        var size :- Checked(Abs(remainder));
        // When doubling overflows, the remainder is more than half of anything that fits.
        var away :- if Fits(2 * size)
                    then (if Fits(Abs(divisor)) then Some(2 * size >= Abs(divisor)) else None) else Some(true);
        if !away then Some(quotient)
        else Checked(quotient + (if (numerator < 0) == (divisor < 0) then 1 else -1))
  }

  /** The magnitudes division works with. */
  lemma {:induction false} DivisionParts(n: int, d: int) returns (q: nat, r: nat)
    requires Fits(n) && d != 0
    ensures q == Abs(n) / Abs(d) && r == Abs(n) % Abs(d) && r < Abs(d) && q <= Abs(n)
    ensures HalfAway(Abs(n), Abs(d)) == if 2 * r >= Abs(d) then q + 1 else q
    ensures r != 0 ==> q < MAX
    ensures Abs(n) < Abs(d) ==> q == 0 && r == Abs(n)
    ensures Abs(n) == Abs(d) ==> q == 1 && r == 0
  {
    HalfAwayPositive(Abs(n), Abs(d));
    q, r := Abs(n) / Abs(d), Abs(n) % Abs(d);
    QuotientFacts(Abs(n), Abs(d), q, r);
  }

  lemma {:induction false} QuotientFacts(a: nat, b: nat, q: nat, r: nat)
    requires a == q * b + r && r < b && a <= -MIN
    ensures q <= a && (r != 0 ==> q < MAX)
    ensures a < b ==> q == 0 && r == a
    ensures a == b ==> q == 1 && r == 0
  {
    Scale(1, b, q);
    if b >= 2 { Scale(2, b, q); }
    if q >= 1 { Scale(1, q, b); }
    if q >= 2 { Scale(2, q, b); }
  }

  /** The steps of the rounding division, on magnitudes. */
  function ByMagnitude(same: bool, q: nat, r: nat, b: nat): Option<int> {
    var quotient :- Checked(if same then q else 0 - q);
    if r == 0 then Some(quotient)
    else
      var away :- if Fits(2 * r) then (if Fits(b) then Some(2 * r >= b) else None) else Some(true);
      if !away then Some(quotient) else Checked(quotient + (if same then 1 else -1))
  }

  lemma {:induction false} DivisionByMagnitude(n: int, d: int, q: nat, r: nat)
    requires d != 0 && q == Abs(n) / Abs(d) && r == Abs(n) % Abs(d) && Fits(r)
    ensures DivRoundHalfAway(n, d) == ByMagnitude((n < 0) == (d < 0), q, r, Abs(d))
  {
  }

  lemma {:induction false} MagnitudeExact(same: bool, q: nat, r: nat, a: nat, b: nat)
    requires r < b && q <= a <= -MIN && b <= -MIN && (r != 0 ==> q < MAX) && (a < b ==> q == 0 && r == a)
             && (a == b ==> q == 1 && r == 0)
    ensures
      var h := if 2 * r >= b then q + 1 else q;
      var v := if same then h else -h;
      ByMagnitude(same, q, r, b) == if !Fits(v) || (b == -MIN && a != 0 && 4 * a <= 2 * MAX) then None else Some(v)
  {
  }

  /** The quotient rounded half away from zero, except when it does not fit, and when the divisor is the least
      integer and the dividend is under a quarter of the range: there the halving test cannot be made. */
  lemma {:induction false} DivisionExact(n: int, d: int)
    requires Fits(n) && Fits(d)
    ensures DivRoundHalfAway(n, d) ==
            if d == 0 || !Fits(HalfAway(n, d))
               || (d == MIN && n != 0 && 4 * Abs(n) <= 2 * MAX) then None else Some(HalfAway(n, d))
  {
    if d != 0 {
      var q, r := DivisionParts(n, d);
      DivisionByMagnitude(n, d, q, r);
      MagnitudeExact((n < 0) == (d < 0), q, r, Abs(n), Abs(d));
      HalfAwaySigned(n, d);
    }
  }

  lemma {:induction false} HalfAwaySigned(n: int, d: int)
    requires d != 0
    ensures HalfAway(n, d) == if (n < 0) == (d < 0) then HalfAway(Abs(n), Abs(d)) else -HalfAway(Abs(n), Abs(d))
  {
  }

  function CheckedPow(k: nat): Option<int> {
    Checked(Pow10(k))
  }

  function Rescale(units: int, from: nat, to: nat): Option<int> {
    if from <= to then
      var factor :- CheckedPow(to - from);
      Checked(units * factor)
    else
      var divisor :- CheckedPow(from - to);
      var quotient, remainder := TDiv(units, divisor), TRem(units, divisor);
      if Abs(remainder) >= divisor / 2 then Checked(quotient + (if units < 0 then -1 else 1)) else Some(quotient)
  }

  /** What changing the scale means, on integers. */
  ghost function Rescaled(units: int, from: nat, to: nat): int {
    if from <= to then units * Pow10(to - from) else HalfAway(units, Pow10(from - to))
  }

  function Distance(a: nat, b: nat): nat {
    if a <= b then b - a else a - b
  }

  /** Dividing by an even number the way `Rescale` and `RoundDigits` do: halves away from zero. */
  lemma {:induction false} EvenDivision(units: int, d: nat)
    requires Fits(units) && d >= 2 && d % 2 == 0
    ensures
      var q, r := TDiv(units, d), TRem(units, d);
      && HalfAway(units, d) == (if 2 * Abs(r) >= d then q + (if units < 0 then -1 else 1) else q)
      && Fits(HalfAway(units, d)) && Fits(q) && Abs(r) < d
  {
    var q, r := DivisionParts(units, d);
    HalfAwaySigned(units, d);
    if r == 0 {
      Scale(2, d, q);
      HalfAwayPositive(Abs(units), d);
    }
  }

  lemma {:induction false} Pow10Even(k: nat)
    requires k > 0
    ensures Pow10(k) >= 10 && Pow10(k) % 2 == 0
  {
    assert Pow10(k) == 2 * (5 * Pow10(k - 1));
  }

  /** Rescaling succeeds exactly when the power of ten and the result fit, and rounds half away from zero. */
  lemma {:induction false} RescaleExact(units: int, from: nat, to: nat)
    requires Fits(units)
    ensures Rescale(units, from, to) ==
            if Fits(Pow10(Distance(from, to)))
               && Fits(Rescaled(units, from, to)) then Some(Rescaled(units, from, to)) else None
  {
    if from > to {
      Pow10Even(from - to);
      EvenDivision(units, Pow10(from - to));
    }
  }

  /** TRUNCATE and ROUND to `digits` places; negative: to the left of the point. */
  function RoundDigits(units: int, scale: nat, digits: int, halfAway: bool): Option<(int, nat)> {
    if digits >= scale then Some((units, scale))
    else
      var factor :- CheckedPow(scale - digits);
      var quotient, remainder := TDiv(units, factor), TRem(units, factor);
      var twice :- if halfAway then Checked(2 * Abs(remainder)) else Some(0);
      var rounded := if halfAway && twice >= factor then quotient + (if units < 0 then -1 else 1) else quotient;
      if digits >= 0 then Some((rounded, digits))
      else
        var restore :- CheckedPow(-digits);
        var whole :- Checked(rounded * restore);
        Some((whole, 0))
  }

  /** The digits kept, as an integer: half away from zero, or toward zero. */
  ghost function Kept(units: int, factor: nat, halfAway: bool): int
    requires factor > 0
  {
    if halfAway then HalfAway(units, factor) else TDiv(units, factor)
  }

  lemma {:induction false} RoundDigitsExact(units: int, scale: nat, digits: int, halfAway: bool)
    requires Fits(units)
    ensures digits >= scale ==> RoundDigits(units, scale, digits, halfAway) == Some((units, scale))
    ensures digits < scale ==>
              var factor := Pow10(scale - digits);
              var kept := Kept(units, factor, halfAway);
              var whole := if digits >= 0 then kept else kept * Pow10(-digits);
              RoundDigits(units, scale, digits, halfAway) ==
              if !Fits(factor) || (halfAway && !Fits(2 * Abs(TRem(units, factor)))) || !Fits(whole) then None
              else Some((whole, if digits >= 0 then digits else 0))
  {
    if digits < scale {
      var factor := Pow10(scale - digits);
      Pow10Even(scale - digits);
      EvenDivision(units, factor);
      if digits < 0 {
        Pow10Add(scale, -digits);
        Scale(1, Pow10(scale), Pow10(-digits));
      }
    }
  }

  // --------------------------------------------------------- the numbers they stand for

  datatype Rational = Frac(num: int, den: nat)

  /** The number `units` stands for at scale `scale`. */
  ghost function Exact(units: int, scale: nat): Rational {
    Frac(units, Pow10(scale))
  }

  ghost predicate Same(x: Rational, y: Rational) {
    x.num * y.den == y.num * x.den
  }

  /** `units` at scale `scale` is `x` rounded to that scale, half away from zero. */
  ghost predicate RoundedTo(units: int, scale: nat, x: Rational)
    requires x.den > 0
  {
    units == HalfAway(x.num * Pow10(scale), x.den)
  }

  ghost function Sum(x: Rational, y: Rational): Rational {
    Frac(x.num * y.den + y.num * x.den, x.den * y.den)
  }

  ghost function Negated(x: Rational): Rational {
    Frac(-x.num, x.den)
  }

  ghost function Product(x: Rational, y: Rational): Rational {
    Frac(x.num * y.num, x.den * y.den)
  }

  ghost function Quotient(x: Rational, y: Rational): Rational
    requires y.num != 0
  {
    if y.num > 0 then Frac(x.num * y.den, x.den * y.num) else Frac(-(x.num * y.den), x.den * (-y.num))
  }

  lemma {:induction false} RescaledRounds(units: int, from: nat, to: nat)
    ensures RoundedTo(Rescaled(units, from, to), to, Exact(units, from))
  {
    if from <= to {
      Pow10Add(to - from, from);
      assert units * Pow10(to) == (units * Pow10(to - from)) * Pow10(from);
      HalfAwayWhole(units * Pow10(to - from), Pow10(from));
    } else {
      Pow10Add(from - to, to);
      HalfAwayScale(units, Pow10(from - to), Pow10(to));
    }
  }

  /** Rescaling is rounding the number to the other scale. */
  lemma {:induction false} RescaleRounds(units: int, from: nat, to: nat, v: int)
    requires Fits(units) && Rescale(units, from, to) == Some(v)
    ensures RoundedTo(v, to, Exact(units, from))
  {
    RescaleExact(units, from, to);
    RescaledRounds(units, from, to);
  }

  /** ROUND within the fraction is rounding the number to that many places. */
  lemma {:induction false} RoundRounds(units: int, scale: nat, digits: nat, v: int, sc: nat)
    requires Fits(units) && digits < scale && RoundDigits(units, scale, digits, true) == Some((v, sc))
    ensures sc == digits && RoundedTo(v, digits, Exact(units, scale))
  {
    RoundDigitsExact(units, scale, digits, true);
    Pow10Add(scale - digits, digits);
    HalfAwayScale(units, Pow10(scale - digits), Pow10(digits));
  }

  datatype Op = Plus | Minus | Multiply | Divide | Modulo

  /** `Stops`: the program ends, since 128-bit remainder overflows. */
  datatype Arith = Value(units: int, scale: nat) | Null | OutOfRange | Stops

  const DIV_SCALE_INCREMENT := 4

  function Widened(units: int, scale: nat, to: nat): Option<int>
    requires scale <= to
  {
    var factor :- CheckedPow(to - scale);
    Checked(units * factor)
  }

  /** `+ - * / %` on decimals; a scale is one byte. */
  function DecimalArith(a: int, asc: nat, op: Op, b: int, bsc: nat): Arith {
    var sc := Max(asc, bsc);
    match op
    case Plus => Added(Widened(a, asc, sc), Widened(b, bsc, sc), 1, sc)
    case Minus => Added(Widened(a, asc, sc), Widened(b, bsc, sc), -1, sc)
    case Multiply => if Fits(a * b) && asc + bsc <= 255 then Value(a * b, asc + bsc) else OutOfRange
    case Divide =>
      if b == 0 then Null
      else if asc + DIV_SCALE_INCREMENT > 255 then OutOfRange
      else Divided(CheckedPow(bsc + DIV_SCALE_INCREMENT), a, b, asc + DIV_SCALE_INCREMENT)
    case Modulo => Remaindered(Widened(a, asc, sc), Widened(b, bsc, sc), sc)
  }

  function Added(a: Option<int>, b: Option<int>, sign: int, sc: nat): Arith {
    if a.None? || b.None? || !Fits(a.value + sign * b.value) then OutOfRange else Value(a.value + sign * b.value, sc)
  }

  function Divided(shift: Option<int>, a: int, b: int, scale: nat): Arith {
    if shift.None? || !Fits(a * shift.value) then OutOfRange
    else
      var q := DivRoundHalfAway(a * shift.value, b);
      if q.None? then OutOfRange else Value(q.value, scale)
  }

  function Remaindered(a: Option<int>, b: Option<int>, sc: nat): Arith {
    if a.None? || b.None? then OutOfRange
    else if b.value == 0 then Null
    else if a.value == MIN && b.value == -1 then Stops
    else Value(TRem(a.value, b.value), sc)
  }

  lemma {:induction false} PowersGrow(j: nat, k: nat)
    requires j <= k
    ensures Pow10(j) <= Pow10(k)
    decreases k
  {
    if j < k {
      PowersGrow(j, k - 1);
    }
  }

  /** The powers of ten an `i128` holds. */
  lemma {:induction false} PowersThatFit(k: nat)
    ensures Fits(Pow10(k)) <==> k <= 38
  {
    assert Pow10(5) == 100000 && Pow10(9) == 1000000000;
    Pow10Add(5, 5);
    Pow10Add(10, 9);
    Pow10Add(19, 19);
    assert Pow10(38) == 100000000000000000000000000000000000000;
    assert Pow10(39) == 1000000000000000000000000000000000000000;
    if k <= 38 { PowersGrow(k, 38); } else { PowersGrow(39, k); }
  }

  /** The operand can be written at the common scale. */
  ghost predicate Aligns(units: int, scale: nat, to: nat)
    requires scale <= to
  {
    to - scale <= 38 && Fits(units * Pow10(to - scale))
  }

  lemma {:induction false} WidenedIff(units: int, scale: nat, to: nat)
    requires scale <= to
    ensures Widened(units, scale, to) == if Aligns(units, scale, to) then Some(units * Pow10(to - scale)) else None
  {
    PowersThatFit(to - scale);
  }

  /** When sums, differences and products are given, and at which scale; otherwise they are out of range. */
  lemma {:induction false} ArithDefined(a: int, asc: nat, op: Op, b: int, bsc: nat)
    requires op == Plus || op == Minus || op == Multiply
    ensures
      var sc := Max(asc, bsc);
      var aa, bb := a * Pow10(sc - asc), b * Pow10(sc - bsc);
      var given := if op == Multiply then Fits(a * b) && asc + bsc <= 255
                   else Aligns(a, asc, sc) && Aligns(b, bsc, sc) && Fits(if op == Plus then aa + bb else aa - bb);
      var r := DecimalArith(a, asc, op, b, bsc);
      if given then r.Value? && r.scale == (if op == Multiply then asc + bsc else sc) else r == OutOfRange
  {
    var sc := Max(asc, bsc);
    WidenedIff(a, asc, sc);
    WidenedIff(b, bsc, sc);
  }

  /**
   * When a quotient is given: NULL for a zero divisor, out of range when the shifted dividend or the quotient does
   * not fit.
   */
  lemma {:induction false} DivideDefined(a: int, asc: nat, b: int, bsc: nat)
    requires Fits(a) && Fits(b)
    ensures
      var r, n := DecimalArith(a, asc, Divide, b, bsc), a * Pow10(bsc + 4);
      if b == 0 then r == Null
      else if asc <= 251 && bsc <= 34 && Fits(n) && Fits(HalfAway(n, b))
              && !(b == MIN && n != 0 && 4 * Abs(n) <= 2 * MAX) then r.Value?
      else r == OutOfRange
  {
    var n := a * Pow10(bsc + 4);
    PowersThatFit(bsc + 4);
    if Fits(n) && b != 0 {
      DivisionExact(n, b);
    }
  }

  lemma {:induction false} TenTimes(k: nat)
    requires k > 0
    ensures Pow10(k) == 10 * Pow10(k - 1)
  {
  }

  /** The least integer is no multiple of ten, and only minus one is minus one at a wider scale. */
  lemma {:induction false} LeastAligned(a: int, g: nat, b: int, h: nat)
    ensures a * Pow10(g) == MIN <==> a == MIN && g == 0
    ensures b * Pow10(h) == -1 <==> b == -1 && h == 0
  {
    if g > 0 {
      TenTimes(g);
      assert a * Pow10(g) == 10 * (a * Pow10(g - 1));
    }
    if h > 0 {
      TenTimes(h);
      assert b * Pow10(h) == 10 * (b * Pow10(h - 1));
    }
  }

  /**
   * When a remainder is given: out of range when an operand cannot be aligned, NULL for a zero divisor, and the
   * program stops exactly on the least integer and minus one at one scale.
   */
  lemma {:induction false} ModuloDefined(a: int, asc: nat, b: int, bsc: nat)
    ensures
      var sc := Max(asc, bsc);
      var r := DecimalArith(a, asc, Modulo, b, bsc);
      if !Aligns(a, asc, sc) || !Aligns(b, bsc, sc) then r == OutOfRange
      else if b == 0 then r == Null
      else if a == MIN && b == -1 && asc == bsc then r == Stops
      else r.Value? && r.scale == sc
  {
    var sc := Max(asc, bsc);
    WidenedIff(a, asc, sc);
    WidenedIff(b, bsc, sc);
    LeastAligned(a, sc - asc, b, sc - bsc);
    if b > 0 { Scale(1, Pow10(sc - bsc), b); } else if b < 0 { Scale(1, Pow10(sc - bsc), -b); }
    assert b != 0 ==> b * Pow10(sc - bsc) != 0;
  }

  /** The input on which the remainder stops the program. */
  lemma {:induction false} ModuloStops(scale: nat)
    ensures DecimalArith(MIN, scale, Modulo, -1, scale) == Stops
  {
    ModuloDefined(MIN, scale, -1, scale);
  }

  /** Widening does not change the number. */
  lemma {:induction false} WidenedSame(units: int, scale: nat, to: nat)
    requires scale <= to && Widened(units, scale, to).Some?
    ensures Widened(units, scale, to).value * Pow10(scale) == units * Pow10(to)
  {
    Pow10Add(to - scale, scale);
    assert (units * Pow10(to - scale)) * Pow10(scale) == units * (Pow10(to - scale) * Pow10(scale));
  }

  lemma {:induction false} SumOfWidened(aa: int, bb: int, a: int, b: int, p: nat, q: nat, t: nat, sign: int)
    requires aa * p == a * t && bb * q == b * t
    ensures (aa + sign * bb) * (p * q) == (a * q + (sign * b) * p) * t
  {
    assert aa * (p * q) == (aa * p) * q && (a * t) * q == (a * q) * t;
    assert (sign * bb) * (p * q) == sign * ((bb * q) * p) && sign * ((b * t) * p) == ((sign * b) * p) * t;
  }

  lemma {:induction false} AddedExact(a: int, asc: nat, b: int, bsc: nat, sign: int, units: int, sc: nat)
    requires sc == Max(asc, bsc) && Added(Widened(a, asc, sc), Widened(b, bsc, sc), sign, sc) == Value(units, sc)
    ensures Same(Exact(units, sc), Sum(Exact(a, asc), Exact(sign * b, bsc)))
  {
    WidenedSame(a, asc, sc);
    WidenedSame(b, bsc, sc);
    SumOfWidened(Widened(a, asc, sc).value, Widened(b, bsc, sc).value, a, b, Pow10(asc), Pow10(bsc), Pow10(sc), sign);
  }

  /** Sums, differences and products are exact. */
  lemma {:induction false} ArithExact(a: int, asc: nat, op: Op, b: int, bsc: nat, units: int, scale: nat)
    requires DecimalArith(a, asc, op, b, bsc) == Value(units, scale)
    ensures op == Plus ==> Same(Exact(units, scale), Sum(Exact(a, asc), Exact(b, bsc)))
    ensures op == Minus ==> Same(Exact(units, scale), Sum(Exact(a, asc), Negated(Exact(b, bsc))))
    ensures op == Multiply ==> Same(Exact(units, scale), Product(Exact(a, asc), Exact(b, bsc)))
  {
    if op == Plus {
      AddedExact(a, asc, b, bsc, 1, units, scale);
    } else if op == Minus {
      AddedExact(a, asc, b, bsc, -1, units, scale);
    } else if op == Multiply {
      Pow10Add(asc, bsc);
    }
  }

  lemma {:induction false} Regrouped(a: int, p: nat, q: nat, t: nat)
    ensures (a * q) * (p * t) == (a * (q * t)) * p
  {
    assert (a * q) * (p * t) == ((a * q) * t) * p && (a * q) * t == a * (q * t);
  }

  lemma {:induction false} QuotientScaled(a: int, b: int, p: nat, q: nat, t: nat)
    requires b != 0 && p > 0 && q > 0
    ensures
      var x := Quotient(Frac(a, p), Frac(b, q));
      x.den > 0 && HalfAway(x.num * (p * t), x.den) == HalfAway(a * (q * t), b)
  {
    var n := a * (q * t);
    Regrouped(a, p, q, t);
    HalfAwayScale(n, b, p);
    if b > 0 {
      Scale(1, p, b);
    } else {
      NegativeQuotient(a * q, p * t, n * p, p, b);
    }
  }

  lemma {:induction false} NegativeQuotient(x: int, y: int, n: int, p: nat, b: int)
    requires b < 0 && p > 0 && x * y == n && b * p != 0
    ensures p * (-b) > 0 && HalfAway((-x) * y, p * (-b)) == HalfAway(n, b * p)
  {
    NegatedProduct(x, y);
    NegatedProduct(p, b);
    Scale(1, p, -b);
    HalfAwaySign(n, b * p);
  }

  /** The quotient is the exact one rounded to four places more than the dividend has. */
  lemma {:induction false} DivideExact(a: int, asc: nat, b: int, bsc: nat, units: int, scale: nat)
    requires Fits(a) && Fits(b) && DecimalArith(a, asc, Divide, b, bsc) == Value(units, scale)
    ensures b != 0 && scale == asc + 4
    ensures
      var x := Quotient(Exact(a, asc), Exact(b, bsc));
      x.den > 0 && RoundedTo(units, scale, x)
  {
    var n := a * Pow10(bsc + 4);
    DivisionExact(n, b);
    Pow10Add(bsc, 4);
    Pow10Add(asc, 4);
    QuotientScaled(a, b, Pow10(asc), Pow10(bsc), Pow10(4));
  }

  lemma {:induction false} TDivScale(n: int, d: int, k: nat)
    requires d != 0 && k > 0
    ensures d * k != 0 && TDiv(n * k, d * k) == TDiv(n, d)
  {
    ProductSign(n, k);
    ProductSign(d, k);
    DivScale(Abs(n), Abs(d), k);
  }

  lemma {:induction false} TDivRem(n: int, d: int)
    requires d != 0
    ensures n == TDiv(n, d) * d + TRem(n, d) && Abs(TRem(n, d)) < Abs(d)
            && (TRem(n, d) != 0 ==> (TRem(n, d) < 0) == (n < 0))
  {
    var q, r := Abs(n) / Abs(d), Abs(n) % Abs(d);
    assert Abs(n) == q * Abs(d) + r;
    NegatedProduct(q, d);
  }

  /** The remainder of dividing the numbers toward zero: it has the dividend's sign and is smaller than the divisor. */
  lemma {:induction false} ModuloExact(a: int, asc: nat, b: int, bsc: nat, units: int, scale: nat) returns (t: int)
    requires DecimalArith(a, asc, Modulo, b, bsc) == Value(units, scale)
    ensures b != 0 && Pow10(asc) * b != 0 && t == TDiv(a * Pow10(bsc), Pow10(asc) * b)
    ensures Same(Exact(units, scale), Sum(Exact(a, asc), Exact(-(t * b), bsc)))
    ensures units != 0 ==> (units < 0) == (a < 0)
    ensures Abs(units) * Pow10(bsc) < Abs(b) * Pow10(scale)
  {
    var aa, bb := Widened(a, asc, scale).value, Widened(b, bsc, scale).value;
    WidenedSame(a, asc, scale);
    WidenedSame(b, bsc, scale);
    TDivRem(aa, bb);
    t := TDiv(aa, bb);
    ModuloQuotient(a, b, aa, bb, Pow10(asc), Pow10(bsc), Pow10(scale));
    SumOfWidened(aa, bb, a, b, Pow10(asc), Pow10(bsc), Pow10(scale), -t);
    assert aa + (-t) * bb == units by { NegatedProduct(t, bb); }
    assert (-t) * b == -(t * b) by { NegatedProduct(t, b); }
    ModuloSize(units, bb, b, Pow10(bsc), Pow10(scale));
    ProductSign(a, Pow10(scale - asc));
  }

  lemma {:induction false} ModuloSize(r: int, bb: int, b: int, q: nat, t: nat)
    requires q > 0 && t > 0 && bb * q == b * t && Abs(r) < Abs(bb)
    ensures Abs(r) * q < Abs(b) * t
  {
    ProductSign(bb, q);
    ProductSign(b, t);
    Scale(Abs(r) + 1, Abs(bb), q);
  }

  lemma {:induction false} ModuloQuotient(a: int, b: int, aa: int, bb: int, p: nat, q: nat, t: nat)
    requires p > 0 && q > 0 && t > 0 && bb != 0 && aa * p == a * t && bb * q == b * t
    ensures b != 0 && p * b != 0 && TDiv(aa, bb) == TDiv(a * q, p * b)
  {
    ProductSign(bb, q);
    ProductSign(b, t);
    ProductSign(b, p);
    Scale(1, p, q);
    var k, n, d := p * q, a * q, p * b;
    Rearranged(aa, a, p, q, t);
    Rearranged(bb, b, q, p, t);
    SameQuotient(aa, bb, k, n, d, t);
  }

  lemma {:induction false} Rearranged(aa: int, a: int, p: nat, q: nat, t: nat)
    requires aa * p == a * t
    ensures aa * (p * q) == (a * q) * t && aa * (q * p) == (q * a) * t
  {
    assert aa * (p * q) == (aa * p) * q && (a * t) * q == (a * q) * t;
  }

  lemma {:induction false} SameQuotient(aa: int, bb: int, k: nat, n: int, d: int, t: nat)
    requires bb != 0 && d != 0 && k > 0 && t > 0 && aa * k == n * t && bb * k == d * t
    ensures TDiv(aa, bb) == TDiv(n, d)
  {
    TDivScale(aa, bb, k);
    TDivScale(n, d, t);
  }
}
