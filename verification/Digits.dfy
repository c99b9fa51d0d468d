/** Decimal digit strings: printing, padding and reading, as the standard integer formatter and parser do. */
module Digits {
  import opened Wrappers

  function Pow10(n: nat): (p: nat)
    ensures p >= 1
  {
    if n == 0 then 1 else 10 * Pow10(n - 1)
  }

  lemma {:induction false} Pow10Add(a: nat, b: nat)
    ensures Pow10(a + b) == Pow10(a) * Pow10(b)
  {
    if a > 0 {
      Pow10Add(a - 1, b);
      assert Pow10(a + b) == 10 * Pow10(a - 1 + b);
    }
  }

  predicate IsDigit(c: char) {
    '0' <= c <= '9'
  }

  function DigitValue(c: char): (d: int)
    ensures IsDigit(c) ==> 0 <= d <= 9
  {
    c as int - '0' as int
  }

  function DigitChar(d: int): (c: char)
    requires 0 <= d <= 9
    ensures IsDigit(c) && DigitValue(c) == d
  {
    ('0' as int + d) as char
  }

  predicate AllDigits(s: string) {
    forall i :: 0 <= i < |s| ==> IsDigit(s[i])
  }

  function Number(s: string): (n: nat)
    requires AllDigits(s)
  {
    if s == "" then 0
    else Number(s[..|s| - 1]) * 10 + DigitValue(s[|s| - 1])
  }

  /** The digits of a number, without leading zeros. */
  function Decimal(n: nat): (s: string)
    ensures |s| >= 1 && AllDigits(s)
  {
    if n < 10 then [DigitChar(n)] else Decimal(n / 10) + [DigitChar(n % 10)]
  }

  function Zeros(n: nat): (s: string)
    ensures |s| == n && AllDigits(s)
    ensures forall i :: 0 <= i < n ==> s[i] == '0'
  {
    if n == 0 then "" else Zeros(n - 1) + "0"
  }

  /** Left padding with zeros to a width. */
  function Padded(s: string, width: nat): string {
    if |s| < width then Zeros(width - |s|) + s else s
  }

  lemma {:induction false} NumberOfDecimal(n: nat)
    ensures Number(Decimal(n)) == n
  {
    if n < 10 {
      assert Decimal(n)[..0] == "";
    } else {
      var s := Decimal(n);
      assert s[..|s| - 1] == Decimal(n / 10);
      NumberOfDecimal(n / 10);
    }
  }

  lemma {:induction false} DecimalWidth(n: nat, width: nat)
    requires width >= 1 && n < Pow10(width)
    ensures |Decimal(n)| <= width
  {
    if n >= 10 {
      assert width >= 2;
      DecimalWidth(n / 10, width - 1);
    }
  }

  lemma {:induction false} NumberConcat(a: string, b: string)
    requires AllDigits(a) && AllDigits(b)
    ensures AllDigits(a + b) && Number(a + b) == Number(a) * Pow10(|b|) + Number(b)
  {
    if b == "" {
      assert a + b == a;
    } else {
      var c := b[..|b| - 1];
      NumberConcat(a, c);
      assert (a + b)[..|a + b| - 1] == a + c;
      Distribute(Number(a), Pow10(|c|), Number(c), DigitValue(b[|b| - 1]));
    }
  }

  lemma {:induction false} Distribute(a: int, p: int, n: int, d: int)
    ensures (a * p + n) * 10 + d == a * (10 * p) + (n * 10 + d)
  {
  }

  lemma {:induction false} NumberOfZeros(n: nat)
    ensures Number(Zeros(n)) == 0
  {
    if n > 0 {
      NumberOfZeros(n - 1);
      assert Zeros(n)[..n - 1] == Zeros(n - 1);
    }
  }

  lemma {:induction false} NumberBound(s: string)
    requires AllDigits(s)
    ensures Number(s) < Pow10(|s|)
  {
    if s != "" {
      NumberBound(s[..|s| - 1]);
    }
  }

  /** A padded number: all digits, of the exact width when it fits, and reading it gives the number. */
  lemma {:induction false} PaddedNumber(n: nat, width: nat)
    requires width >= 1
    ensures AllDigits(Padded(Decimal(n), width)) && Number(Padded(Decimal(n), width)) == n
    ensures |Padded(Decimal(n), width)| >= width
    ensures n < Pow10(width) ==> |Padded(Decimal(n), width)| == width
  {
    var s := Decimal(n);
    NumberOfDecimal(n);
    if n < Pow10(width) { DecimalWidth(n, width); }
    if |s| < width {
      NumberConcat(Zeros(width - |s|), s);
      NumberOfZeros(width - |s|);
    }
  }

  // ---------------------------------------------------------- the integer parser

  /** An optional sign and at least one digit; the unsigned parser takes no minus. */
  function ParseInteger(s: string, low: int, high: int): (r: Option<int>)
    ensures r.Some? ==> low <= r.value <= high
  {
    var negative := s != "" && s[0] == '-' && low < 0;
    var digits := if s != "" && (s[0] == '+' || negative) then s[1..] else s;
    if digits == "" || !AllDigits(digits) then None
    else
      var n := if negative then 0 - Number(digits) else Number(digits);
      if low <= n <= high then Some(n) else None
  }

  function ParseI64(s: string): Option<int> {
    ParseInteger(s, -0x8000_0000_0000_0000, 0x7fff_ffff_ffff_ffff)
  }

  function ParseU32(s: string): Option<int> {
    ParseInteger(s, 0, 0xffff_ffff)
  }

  lemma {:induction false} ParseDigits(s: string, low: int, high: int)
    requires s != "" && AllDigits(s)
    ensures ParseInteger(s, low, high) == if low <= Number(s) <= high then Some(Number(s)) else None
  {
    assert IsDigit(s[0]);
  }

  /** A plus sign counts for nothing; a minus sign negates, or is refused where there are no negative numbers. */
  lemma {:induction false} ParseSigns(s: string, low: int, high: int)
    requires s != "" && AllDigits(s)
    ensures ParseInteger("+" + s, low, high) == if low <= Number(s) <= high then Some(Number(s)) else None
    ensures ParseInteger("-" + s, low, high) ==
            if low < 0 && low <= 0 - Number(s) <= high then Some(0 - Number(s)) else None
  {
    assert ("+" + s)[1..] == s && ("-" + s)[1..] == s;
  }

  /** The least and the greatest number of 64 bits, and one beyond. */
  lemma {:induction false} ParseLimits(s: string)
    requires s != "" && AllDigits(s)
    ensures ParseI64("-" + s).Some? <==> Number(s) <= 0x8000_0000_0000_0000
    ensures ParseI64(s).Some? <==> Number(s) < 0x8000_0000_0000_0000
    ensures ParseU32(s).Some? <==> Number(s) < 0x1_0000_0000
  {
    ParseSigns(s, -0x8000_0000_0000_0000, 0x7fff_ffff_ffff_ffff);
    ParseDigits(s, -0x8000_0000_0000_0000, 0x7fff_ffff_ffff_ffff);
    ParseDigits(s, 0, 0xffff_ffff);
  }
}
