/** Reading and printing DECIMAL values (crates/elyra-core/src/value.rs). */
module DecimalText {
  import opened Wrappers
  import opened Digits
  import opened Texts
  import opened Products
  import opened Decimals

  /** A decimal text taken apart: its sign and the digits on both sides of the point. */
  datatype Literal = Literal(neg: bool, whole: string, frac: string)

  function Strip(s: string): (bool, string) {
    if s != "" && s[0] == '-' then (true, s[1..])
    else if s != "" && s[0] == '+' then (false, s[1..])
    else (false, s)
  }

  function Points(s: string): (string, string) {
    match Cut(s, {'.'})
    case Some((a, b)) => (a, b)
    case None => (s, "")
  }

  function Split(text: string): Option<Literal> {
    var (neg, s) := Strip(Trim(text));
    var (whole, frac) := Points(s);
    if AllDigits(whole) && AllDigits(frac) then Some(Literal(neg, whole, frac)) else None
  }

  predicate Digital(l: Literal) {
    AllDigits(l.whole) && AllDigits(l.frac)
  }

  /** The digits kept at scale `ts`, padded on the right if there are fewer. */
  function DigitsAt(l: Literal, ts: nat): string {
    l.whole + (if |l.frac| >= ts then l.frac[..ts] else l.frac + Zeros(ts - |l.frac|))
  }

  predicate RoundsUp(l: Literal, ts: nat) {
    ts < |l.frac| && l.frac[ts] >= '5'
  }

  function Finish(n: Option<int>, up: bool, neg: bool): Option<int> {
    var v :- n;
    var w :- if up then Checked(v + 1) else Some(v);
    Some(if neg then -w else w)
  }

  /** The value at scale `ts`, if it fits: digits beyond the scale round half away from zero. */
  function AtScale(l: Literal, ts: nat): Option<int>
    requires Digital(l)
  {
    Finish(ParseInteger(DigitsAt(l, ts), MIN, MAX), RoundsUp(l, ts), l.neg)
  }

  function ParseDecimal(text: string, ts: nat): Option<int> {
    var l :- Split(text);
    AtScale(l, ts)
  }

  /** All digits as one number. */
  function Unscaled(l: Literal): nat
    requires Digital(l)
  {
    NumberConcat(l.whole, l.frac);
    Number(l.whole + l.frac)
  }

  function Signed(neg: bool, n: int): int {
    if neg then -n else n
  }

  /** The first digit decides which half a number is in. */
  lemma {:induction false} FirstDigit(s: string)
    requires s != "" && AllDigits(s)
    ensures s[0] >= '5' <==> 2 * Number(s) >= Pow10(|s|)
  {
    NumberConcat(s[..1], s[1..]);
    assert s == s[..1] + s[1..];
    NumberBound(s[1..]);
    var d, rest, p := DigitValue(s[0]), Number(s[1..]), Pow10(|s| - 1);
    assert Number(s[..1]) == d by { assert s[..1][..0] == ""; }
    WhichHalf(d, rest, p);
  }

  lemma {:induction false} WhichHalf(d: int, rest: int, p: int)
    requires 0 <= d <= 9 && 0 <= rest < p
    ensures d >= 5 <==> 2 * (d * p + rest) >= 10 * p
  {
    if d >= 5 {
      Scale(5, d, p);
    } else {
      Scale(d, 4, p);
    }
  }

  /** Appending zeros multiplies. */
  lemma {:induction false} PaddedRight(s: string, k: nat)
    requires AllDigits(s)
    ensures AllDigits(s + Zeros(k)) && Number(s + Zeros(k)) == Number(s) * Pow10(k)
  {
    NumberConcat(s, Zeros(k));
    NumberOfZeros(k);
  }

  lemma {:induction false} RoundedDigits(a: string, b: string)
    requires AllDigits(a) && AllDigits(b) && b != ""
    ensures AllDigits(a + b) && HalfAway(Number(a + b), Pow10(|b|)) == Number(a) + (if b[0] >= '5' then 1 else 0)
  {
    NumberConcat(a, b);
    NumberBound(b);
    FirstDigit(b);
    RoundedNumber(Number(a + b), Number(a), Number(b), Pow10(|b|), b[0] >= '5');
  }

  lemma {:induction false} RoundedNumber(n: nat, q: nat, r: nat, d: nat, up: bool)
    requires n == q * d + r && r < d && up == (2 * r >= d)
    ensures HalfAway(n, d) == q + (if up then 1 else 0)
  {
    HalfAwayOf(q, r, d);
  }

  /** What the digits come to at scale `ts`. */
  ghost function Magnitude(l: Literal, ts: nat): int
    requires Digital(l)
  {
    Rescaled(Unscaled(l), |l.frac|, ts)
  }

  lemma {:induction false} MagnitudeDigits(l: Literal, ts: nat)
    requires Digital(l)
    ensures AllDigits(DigitsAt(l, ts))
            && Magnitude(l, ts) == Number(DigitsAt(l, ts)) + (if RoundsUp(l, ts) then 1 else 0)
  {
    if |l.frac| > ts {
      var a, b := l.whole + l.frac[..ts], l.frac[ts..];
      assert a + b == l.whole + l.frac;
      RoundedDigits(a, b);
    } else if |l.frac| == ts {
      assert l.frac[..ts] == l.frac;
    } else {
      var k := ts - |l.frac|;
      assert (l.whole + l.frac) + Zeros(k) == l.whole + (l.frac + Zeros(k));
      PaddedRight(l.whole + l.frac, k);
    }
  }

  /**
   * Reading at a scale gives the number rounded to it, if it fits; a text with no digit before the scale's end fails.
   */
  lemma {:induction false} AtScaleExact(l: Literal, ts: nat)
    requires Digital(l)
    ensures AtScale(l, ts) ==
            if (l.whole == "" && ts == 0) || Magnitude(l, ts) > MAX then None else Some(Signed(l.neg, Magnitude(l, ts)))
  {
    MagnitudeDigits(l, ts);
    var digits := DigitsAt(l, ts);
    if digits != "" {
      ParseDigits(digits, MIN, MAX);
      FinishExact(Number(digits), RoundsUp(l, ts), l.neg);
    }
    assert digits == "" <==> l.whole == "" && ts == 0;
  }

  lemma {:induction false} FinishExact(n: nat, up: bool, neg: bool)
    ensures
      var m := n + (if up then 1 else 0);
      Finish(if n <= MAX then Some(n) else None, up, neg) == if m > MAX then None else Some(Signed(neg, m))
  {
  }

  lemma {:induction false} RescaledSigned(neg: bool, n: int, from: nat, to: nat)
    requires n >= 0
    ensures Rescaled(Signed(neg, n), from, to) == Signed(neg, Rescaled(n, from, to))
  {
    if from <= to {
      NegatedProduct(n, Pow10(to - from));
    } else {
      HalfAwayNegated(n, Pow10(from - to));
    }
  }

  lemma {:induction false} HalfAwayNegated(n: int, d: nat)
    requires d > 0 && n >= 0
    ensures HalfAway(-n, d) == -HalfAway(n, d)
  {
    if n == 0 {
      DivUnique(d, 2 * d, 0);
    }
  }

  /** In other words: the exact number, rounded half away from zero. */
  lemma {:induction false} ParseRounds(l: Literal, ts: nat, v: int)
    requires Digital(l) && AtScale(l, ts) == Some(v)
    ensures RoundedTo(v, ts, Exact(Signed(l.neg, Unscaled(l)), |l.frac|))
  {
    AtScaleExact(l, ts);
    RescaledSigned(l.neg, Unscaled(l), |l.frac|, ts);
    RescaledRounds(Signed(l.neg, Unscaled(l)), |l.frac|, ts);
  }

  /** Multiples of ten miss the least integer. */
  lemma {:induction false} NotLeast(n: nat, k: nat)
    requires k > 0
    ensures n * Pow10(k) != -MIN
  {
    assert n * Pow10(k) == 10 * (n * Pow10(k - 1));
  }

  /** The same on numbers: `h` is `n` taken from one scale to another, `p` the power of ten between them. */
  lemma {:induction false} ScaledSize(n: nat, own: nat, ts: nat)
    requires n <= MAX
    ensures
      var h, p := Rescaled(n, own, ts), Pow10(Distance(own, ts));
      && 0 <= h && h != -MIN
      && (ts <= own ==> h <= MAX)
      && (ts > own && n == 0 ==> h == 0)
      && (ts > own && n > 0 && !Fits(p) ==> h > MAX)
  {
    if ts > own {
      NotLeast(n, ts - own);
      Scale(0, n, Pow10(ts - own));
      if n > 0 { Scale(1, n, Pow10(ts - own)); }
    } else if ts < own {
      Pow10Even(own - ts);
      HalfAwaySmaller(n, Pow10(own - ts));
    }
  }

  /**
   * Reading at scale `ts` agrees with reading at the text's own scale and rescaling, exactly when the power of ten
   * between the scales fits (or scaling up would overflow anyway) and there is a digit to read; for a text like
   * ".5" at scale 0 they agree only if that power does not fit, when both fail.
   */
  lemma {:induction false} OwnScaleAgreesIff(l: Literal, ts: nat, u: int)
    requires Digital(l) && AtScale(l, |l.frac|) == Some(u)
    ensures
      var own := |l.frac|;
      AtScale(l, ts) == Rescale(u, own, ts) <==>
      if l.whole == "" && ts == 0 then !Fits(Pow10(own))
      else Fits(Pow10(Distance(own, ts))) || (ts > own && Unscaled(l) != 0)
  {
    var own, n := |l.frac|, Unscaled(l);
    AtScaleExact(l, own);
    assert Magnitude(l, own) == n * 1 == n;
    AtScaleExact(l, ts);
    RescaleExact(u, own, ts);
    RescaledSigned(l.neg, n, own, ts);
    ScaledSize(n, own, ts);
  }

  /** Two texts where they differ: no digits at all, and no digit before the point at scale 0. */
  lemma {:induction false} NoDigits()
    ensures AtScale(Literal(false, "", ""), 2) == Some(0) && AtScale(Literal(false, "", ""), 0) == None
  {
    var l := Literal(false, "", "");
    assert l.whole + l.frac == "";
    AtScaleExact(l, 2);
    AtScaleExact(l, 0);
  }

  lemma {:induction false} NoDigitBeforePoint()
    ensures AtScale(Literal(false, "", "5"), 0) == None && AtScale(Literal(false, "", "5"), 1) == Some(5)
            && Rescale(5, 1, 0) == Some(1)
  {
    var l := Literal(false, "", "5");
    assert l.whole + l.frac == "5" && "5"[..0] == "";
    AtScaleExact(l, 0);
    AtScaleExact(l, 1);
    assert Pow10(1) == 10;
    RescaleExact(5, 1, 0);
    HalfAwayPositive(5, 10);
  }

  // --------------------------------------------------------------------- printing

  function FormatMagnitude(n: nat, scale: nat): string {
    var digits := Decimal(n);
    if scale == 0 then digits
    else if |digits| <= scale then "0." + Padded(digits, scale)
    else digits[..|digits| - scale] + "." + digits[|digits| - scale..]
  }

  function FormatDecimal(units: int, scale: nat): string {
    if units < 0 then "-" + FormatMagnitude(-units, scale) else FormatMagnitude(units, scale)
  }

  ghost predicate Plain(s: string) {
    s != "" && AllDigits(s)
  }

  lemma {:induction false} PlainStays(s: string)
    requires Plain(s)
    ensures !IsSpace(s[0]) && !IsSpace(s[|s| - 1]) && s[0] != '-' && s[0] != '+'
    ensures forall i | 0 <= i < |s| :: s[i] != '.'
  {
    assert IsDigit(s[0]) && IsDigit(s[|s| - 1]);
  }

  /** Digits on both sides of the point, as text. */
  ghost function Pointed(whole: string, frac: string): string {
    if frac == "" then whole else whole + "." + frac
  }

  ghost predicate Parts(whole: string, frac: string, n: nat, scale: nat) {
    Plain(whole) && AllDigits(frac) && |frac| == scale && AllDigits(whole + frac) && Number(whole + frac) == n
  }

  lemma {:induction false} ZeroLed(frac: string)
    requires AllDigits(frac)
    ensures AllDigits("0" + frac) && Number("0" + frac) == Number(frac)
  {
    NumberConcat("0", frac);
    assert Number("0") == 0 by { assert "0"[..0] == ""; }
  }

  lemma {:induction false} SmallParts(n: nat, scale: nat)
    requires scale > 0 && |Decimal(n)| <= scale
    ensures Parts("0", Padded(Decimal(n), scale), n, scale)
            && FormatMagnitude(n, scale) == Pointed("0", Padded(Decimal(n), scale))
  {
    assert "0." == "0" + ".";
    PaddedNumber(n, scale);
    ZeroLed(Padded(Decimal(n), scale));
  }

  /** A single zero, or no zero at the start. */
  ghost predicate Led(whole: string) {
    whole == "0" || (whole != "" && whole[0] != '0')
  }

  lemma {:induction false} NoLeadingZero(n: nat)
    ensures Decimal(n)[0] == '0' ==> Decimal(n) == "0"
  {
    if n >= 10 {
      NoLeadingZero(n / 10);
      NumberOfDecimal(n / 10);
    }
  }

  lemma {:induction false} LargeParts(n: nat, scale: nat)
    requires |Decimal(n)| > scale
    ensures
      var d := Decimal(n);
      && Parts(d[..|d| - scale], d[|d| - scale..], n, scale)
      && FormatMagnitude(n, scale) == Pointed(d[..|d| - scale], d[|d| - scale..]) && Led(d[..|d| - scale])
  {
    var d := Decimal(n);
    NumberOfDecimal(n);
    NoLeadingZero(n);
    assert d[..|d| - scale] + d[|d| - scale..] == d;
  }

  /** The digits a magnitude is printed with, on both sides of the point. */
  lemma {:induction false} MagnitudeParts(n: nat, scale: nat) returns (whole: string, frac: string)
    ensures Parts(whole, frac, n, scale) && FormatMagnitude(n, scale) == Pointed(whole, frac) && Led(whole)
  {
    var digits := Decimal(n);
    if scale > 0 && |digits| <= scale {
      whole, frac := "0", Padded(digits, scale);
      SmallParts(n, scale);
    } else {
      whole, frac := digits[..|digits| - scale], digits[|digits| - scale..];
      LargeParts(n, scale);
    }
  }

  lemma {:induction false} PointsRead(whole: string, frac: string)
    requires Plain(whole) && AllDigits(frac)
    ensures Points(Pointed(whole, frac)) == (whole, frac)
  {
    PlainStays(whole);
    if frac == "" {
      CutNone(whole, {'.'});
    } else {
      CutAt(whole, '.', frac, {'.'});
    }
  }

  ghost function WithSign(neg: bool, body: string): string {
    if neg then "-" + body else body
  }

  lemma {:induction false} PointedEnds(whole: string, frac: string)
    requires Plain(whole) && AllDigits(frac)
    ensures
      var s := Pointed(whole, frac);
      s != "" && s[0] != '-' && s[0] != '+' && !IsSpace(s[0]) && !IsSpace(s[|s| - 1])
  {
    PlainStays(whole);
    if frac != "" { PlainStays(frac); }
  }

  lemma {:induction false} SignReads(neg: bool, body: string)
    requires body != "" && body[0] != '-' && body[0] != '+' && !IsSpace(body[0]) && !IsSpace(body[|body| - 1])
    ensures Strip(Trim(WithSign(neg, body))) == (neg, body)
  {
    TrimEnds(WithSign(neg, body));
    if neg { assert ("-" + body)[1..] == body; }
  }

  lemma {:induction false} SplitReads(neg: bool, whole: string, frac: string)
    requires Plain(whole) && AllDigits(frac)
    ensures Split(WithSign(neg, Pointed(whole, frac))) == Some(Literal(neg, whole, frac))
  {
    PointedEnds(whole, frac);
    SignReads(neg, Pointed(whole, frac));
    PointsRead(whole, frac);
  }

  lemma {:induction false} OwnScale(l: Literal, n: nat)
    requires Parts(l.whole, l.frac, n, |l.frac|)
    ensures AtScale(l, |l.frac|) == if n > MAX then None else Some(Signed(l.neg, n))
  {
    AtScaleExact(l, |l.frac|);
    assert Magnitude(l, |l.frac|) == n * 1 == n;
  }

  /**
   * Printing and reading back at the same scale is the identity, except for the least integer, whose magnitude does
   * not fit.
   */
  lemma {:induction false} FormatRoundTrip(units: int, scale: nat)
    requires Fits(units)
    ensures ParseDecimal(FormatDecimal(units, scale), scale) == if units == MIN then None else Some(units)
  {
    var whole, frac := MagnitudeParts(Abs(units), scale);
    SplitReads(units < 0, whole, frac);
    OwnScale(Literal(units < 0, whole, frac), Abs(units));
    assert FormatDecimal(units, scale) == WithSign(units < 0, Pointed(whole, frac));
  }

  // ------------------------------------------------------------------ what texts mean

  /**
   * A text of digits with or without a point reads as these digits at every scale: a minus sign negates, a plus sign
   * counts for nothing, and so do spaces around.
   */
  lemma {:induction false} TextMeans(before: string, sign: string, whole: string, frac: string, after: string, ts: nat)
    requires sign in {"", "+", "-"} && Plain(whole) && AllDigits(frac)
    requires (forall i | 0 <= i < |before| :: IsSpace(before[i])) && (forall i | 0 <= i < |after| :: IsSpace(after[i]))
    ensures ParseDecimal(before + (sign + Pointed(whole, frac)) + after, ts) ==
            AtScale(Literal(sign == "-", whole, frac), ts)
  {
    PointedEnds(whole, frac);
    PointsRead(whole, frac);
    SignStripped(sign, Pointed(whole, frac));
    TrimPads(before, sign + Pointed(whole, frac), after);
  }

  lemma {:induction false} SignStripped(sign: string, body: string)
    requires sign in {"", "+", "-"}
    requires body != "" && body[0] != '-' && body[0] != '+' && !IsSpace(body[0]) && !IsSpace(body[|body| - 1])
    ensures
      var s := sign + body;
      s != "" && !IsSpace(s[0]) && !IsSpace(s[|s| - 1]) && Strip(s) == (sign == "-", body)
  {
    var s := sign + body;
    assert s[0] == (if sign == "" then body[0] else sign[0]) && s[|s| - 1] == body[|body| - 1];
    assert s[|sign|..] == body;
  }

  /**
   * A decimal is printed with a minus sign if it is negative, as many places as its scale, and all its digits; before
   * the point stands a single zero or a digit that is not zero.
   */
  lemma {:induction false} FormatMeans(units: int, scale: nat) returns (whole: string, frac: string)
    requires Fits(units)
    ensures FormatDecimal(units, scale) ==
            (if units < 0 then "-" else "") + whole + (if scale == 0 then "" else "." + frac)
    ensures |frac| == scale && AllDigits(whole + frac) && Number(whole + frac) == Abs(units)
    ensures whole == "0" || (whole != "" && whole[0] != '0')
  {
    whole, frac := MagnitudeParts(Abs(units), scale);
    Regrouped(if units < 0 then "-" else "", whole, if scale == 0 then "" else "." + frac);
    assert whole + "." + frac == whole + ("." + frac);
  }

  lemma {:induction false} Regrouped(a: string, b: string, c: string)
    ensures a + b + c == a + (b + c)
  {
  }
}
