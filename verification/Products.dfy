/** Facts about products and quotients of integers. */
module Products {
  function Max(a: nat, b: nat): nat {
    if a >= b then a else b
  }

  lemma {:induction false} Scale(a: int, b: int, y: int)
    requires a <= b && y >= 0
    ensures a * y <= b * y
  {
    assert (b - a) * y >= 0;
  }

  lemma {:induction false} DivUnique(x: int, y: int, q: int)
    requires y > 0 && q * y <= x < (q + 1) * y
    ensures x / y == q
  {
    var p := x / y;
    assert p * y <= x < (p + 1) * y;
    if p > q {
      Scale(q + 1, p, y);
    } else if p < q {
      Scale(p + 1, q, y);
    }
  }

  lemma {:induction false} ScaleStrict(a: int, b: int, k: int)
    requires k > 0 && a < b
    ensures a * k < b * k
  {
    Scale(a + 1, b, k);
    assert (a + 1) * k == a * k + k;
  }

  lemma {:induction false} Cancel(a: int, b: int, k: nat)
    requires k > 0 && a * k == b * k
    ensures a == b
  {
    if a < b {
      ScaleStrict(a, b, k);
    } else if b < a {
      ScaleStrict(b, a, k);
    }
  }
}
