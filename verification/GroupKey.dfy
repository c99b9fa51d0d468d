/** Grouping keys and folded comparison (crates/elyra-core/src/value.rs). */
module GroupKey {
  import opened Bytes
  import opened Values
  import opened Digits
  import opened Products
  import RowDec

  /**
   * `fold`: the case-insensitive collation. `value`: the number a float's bits stand for. `debug`: the text of the
   * remaining kinds of value.
   */
  datatype Keying = Keying(fold: bytes -> bytes, value: u64 -> real, debug: Value -> bytes)

  /** One bit pattern for both zeros. */
  function Canonical(k: Keying, bits: u64): u64 {
    if k.value(bits) == 0.0 then 0 else bits
  }

  // -------------------------------------------------------------------- decimals

  lemma {:induction false} TenFold(x: int, p: int, u: int, q: int)
    requires x * p == u * q
    ensures x * (10 * p) == (10 * u) * q
  {
    assert x * (10 * p) == 10 * (x * p) && (10 * u) * q == 10 * (u * q);
  }

  /** Trailing zeros of the fraction dropped. */
  function Stripped(units: i128, scale: byte): (r: (i128, byte))
    ensures r.0 * Pow10(scale) == units * Pow10(r.1) && r.1 <= scale
    ensures r.1 == 0 || r.0 % 10 != 0
    decreases scale
  {
    if scale > 0 && units % 10 == 0 then
      var r := Stripped(units / 10, scale - 1);
      TenFold(r.0, Pow10(scale - 1), units / 10, Pow10(r.1));
      r
    else (units, scale)
  }

  method StripZeros(units: i128, scale: byte) returns (u: i128, s: byte)
    ensures (u, s) == Stripped(units, scale)
  {
    u, s := units, scale;
    while s > 0 && u % 10 == 0
      invariant Stripped(u, s) == Stripped(units, scale)
      decreases s
    {
      u := u / 10;
      s := s - 1;
    }
  }

  lemma {:induction false} EndsInZero(u: int, s: nat)
    requires s > 0
    ensures (u * Pow10(s)) % 10 == 0
  {
    assert u * Pow10(s) == 10 * (u * Pow10(s - 1));
  }

  lemma {:induction false} Associate(u: int, k: int, p: int)
    ensures u * (k * p) == (u * k) * p
  {
  }

  /** Of two stripped pairs for one number, neither has more places than the other. */
  lemma {:induction false} StrippedScale(u1: int, s1: nat, u2: int, s2: nat)
    requires (s2 == 0 || u2 % 10 != 0) && u1 * Pow10(s2) == u2 * Pow10(s1) && s1 <= s2
    ensures s1 == s2 && u1 == u2
  {
    Pow10Add(s2 - s1, s1);
    Associate(u1, Pow10(s2 - s1), Pow10(s1));
    Cancel(u1 * Pow10(s2 - s1), u2, Pow10(s1));
    if s1 < s2 {
      EndsInZero(u1, s2 - s1);
    }
  }

  /** One stripped pair per number: they are equal exactly when the numbers are. */
  lemma {:induction false} StrippedIff(u1: i128, s1: byte, u2: i128, s2: byte)
    ensures Stripped(u1, s1) == Stripped(u2, s2) <==> u1 * Pow10(s2) == u2 * Pow10(s1)
  {
    var (a, m) := Stripped(u1, s1);
    var (b, n) := Stripped(u2, s2);
    StrippedSame(u1, s1, u2, s2, a, m, b, n);
    if u1 * Pow10(s2) == u2 * Pow10(s1) {
      if m <= n { StrippedScale(a, m, b, n); } else { StrippedScale(b, n, a, m); }
    }
  }

  /** The four factors of a cross product in another order. */
  lemma {:induction false} Regroup(a: int, y: int, p: int, q: int)
    ensures (a * y) * (p * q) == (a * p) * (q * y)
  {
    Associate(a * y, p, q);
    assert (a * y) * p == (a * p) * y;
    Associate(a * p, q, y);
    assert ((a * p) * y) * q == ((a * p) * q) * y;
  }

  lemma {:induction false} CrossForward(a: int, b: int, u1: int, u2: int, p: nat, q: nat, x: nat, y: nat)
    requires p > 0 && q > 0 && a * p == u1 * x && b * q == u2 * y && u1 * q == u2 * p
    ensures a * y == b * x
  {
    Regroup(a, y, p, q);
    Regroup(u1, q, x, y);
    Regroup(b, x, q, p);
    Regroup(u2, p, y, x);
    ScaleStrict(0, p, q);
    Cancel(a * y, b * x, p * q);
  }

  lemma {:induction false} StrippedSame(u1: int, s1: nat, u2: int, s2: nat, a: int, m: nat, b: int, n: nat)
    requires a * Pow10(s1) == u1 * Pow10(m) && b * Pow10(s2) == u2 * Pow10(n)
    ensures u1 * Pow10(s2) == u2 * Pow10(s1) ==> a * Pow10(n) == b * Pow10(m)
    ensures a == b && m == n ==> u1 * Pow10(s2) == u2 * Pow10(s1)
  {
    var p, q, x, y := Pow10(s1), Pow10(s2), Pow10(m), Pow10(n);
    if u1 * q == u2 * p { CrossForward(a, b, u1, u2, p, q, x, y); }
    if a == b && m == n { CrossForward(u1, u2, a, b, x, y, p, q); }
  }

  // ------------------------------------------------------------------ keys of values

  function Sized(tag: byte, s: bytes): bytes {
    [tag] + RowDec.LittleEndian(|s|, 4) + s
  }

  function DecimalKey(units: i128, scale: byte): bytes {
    [7] + RowDec.Signed(units, 16) + [scale]
  }

  /** The key of a value under the default collation: a tag, then a canonical form. */
  function KeyOf(k: Keying, v: Value): bytes {
    match v
    case Null => [0]
    case Int(i) => [1] + RowDec.Signed(i, 8)
    case Bool(b) => [2, if b then 1 else 0]
    case Float(bits) => [3] + RowDec.LittleEndian(Canonical(k, bits), 8)
    case Text(s) => Sized(4, k.fold(s))
    case Json(s) => Sized(4, k.fold(s))
    case UInt(u) => if u < 0x8000_0000_0000_0000 then [1] + RowDec.Signed(u, 8) else [6] + RowDec.LittleEndian(u, 8)
    case Decimal(u, s) => DecimalKey(Stripped(u, s).0, Stripped(u, s).1)
    case _ => Sized(5, k.debug(v))
  }

  /** Under a binary collation text is keyed by its exact bytes. */
  function KeyColl(k: Keying, v: Value, coll: Collation): bytes {
    if coll == Bin && (v.Text? || v.Json?) then Sized(4, v.s) else KeyOf(k, v)
  }

  /** Text and printed forms short enough for their 32-bit length. */
  predicate Keyable(k: Keying, v: Value, coll: Collation) {
    match v
    case Text(s) => |if coll == Bin then s else k.fold(s)| < 0x1_0000_0000
    case Json(s) => |if coll == Bin then s else k.fold(s)| < 0x1_0000_0000
    case Blob(_) => |k.debug(v)| < 0x1_0000_0000
    case Vector(_) => |k.debug(v)| < 0x1_0000_0000
    case Date(_) => |k.debug(v)| < 0x1_0000_0000
    case DateTime(_) => |k.debug(v)| < 0x1_0000_0000
    case Time(_) => |k.debug(v)| < 0x1_0000_0000
    case _ => true
  }

  /** The keys of a row's columns, and the row's key: all of them in a row. */
  function Keys(k: Keying, row: seq<Value>, colls: seq<Collation>): (r: seq<bytes>)
    ensures |r| == |row|
    ensures forall i | 0 <= i < |row| :: r[i] == KeyColl(k, row[i], CollationAt(colls, i))
  {
    if row == [] then []
    else Keys(k, row[..|row| - 1], colls) + [KeyColl(k, row[|row| - 1], CollationAt(colls, |row| - 1))]
  }

  function Concat(xs: seq<bytes>): bytes {
    if xs == [] then [] else Concat(xs[..|xs| - 1]) + xs[|xs| - 1]
  }

  function RowKeyColl(k: Keying, row: seq<Value>, colls: seq<Collation>): bytes {
    Concat(Keys(k, row, colls))
  }

  /** Appends a value's key to the buffer. */
  method PushKey(k: Keying, v: Value, coll: Collation, out: bytes) returns (r: bytes)
    ensures r == out + KeyColl(k, v, coll)
  {
    match v {
      case Null => r := out + [0];
      case Int(i) =>
        r := out + [1];
        r := r + RowDec.Signed(i, 8);
      case Bool(b) =>
        r := out + [2];
        r := r + [if b then 1 else 0];
      case Float(bits) =>
        r := out + [3];
        r := r + RowDec.LittleEndian(Canonical(k, bits), 8);
      case Text(s) => r := PushSized(4, if coll == Bin then s else k.fold(s), out);
      case Json(s) => r := PushSized(4, if coll == Bin then s else k.fold(s), out);
      case UInt(u) =>
        if u < 0x8000_0000_0000_0000 {
          r := out + [1];
          r := r + RowDec.Signed(u, 8);
        } else {
          r := out + [6];
          r := r + RowDec.LittleEndian(u, 8);
        }
      case Decimal(units, scale) =>
        var u, s := StripZeros(units, scale);
        r := out + [7];
        r := r + RowDec.Signed(u, 16);
        r := r + [s];
      case _ => r := PushSized(5, k.debug(v), out);
    }
  }

  /** A tag, the length in four bytes (longer ones lose their high part), and the bytes. */
  method PushSized(tag: byte, s: bytes, out: bytes) returns (r: bytes)
    ensures r == out + Sized(tag, s)
  {
    r := out + [tag];
    r := r + RowDec.LittleEndian(|s|, 4);
    r := r + s;
  }

  method RowKey(k: Keying, row: seq<Value>, colls: seq<Collation>) returns (out: bytes)
    ensures out == RowKeyColl(k, row, colls)
  {
    out := [];
    ghost var keys := Keys(k, row, colls);
    for i := 0 to |row|
      invariant out == Concat(keys[..i])
    {
      out := PushKey(k, row[i], CollationAt(colls, i), out);
      assert keys[..i + 1][..i] == keys[..i];
    }
    assert keys[..|row|] == keys;
  }

  // ----------------------------------------------------------------- what keys mean

  lemma {:induction false} SignedInjective(a: int, b: int, n: nat)
    requires 0 - Pow256(n) <= 2 * a < Pow256(n) && 0 - Pow256(n) <= 2 * b < Pow256(n)
    requires RowDec.Signed(a, n) == RowDec.Signed(b, n)
    ensures a == b
  {
    RowDec.SignedRoundTrip(a, n);
    RowDec.SignedRoundTrip(b, n);
  }

  lemma {:induction false} LittleInjective(a: nat, b: nat, n: nat)
    requires a < Pow256(n) && b < Pow256(n) && RowDec.LittleEndian(a, n) == RowDec.LittleEndian(b, n)
    ensures a == b
  {
    RowDec.LittleRoundTrip(a, n);
    RowDec.LittleRoundTrip(b, n);
  }

  lemma {:induction false} DecimalKeyInjective(a: i128, m: byte, b: i128, n: byte)
    requires DecimalKey(a, m) == DecimalKey(b, n)
    ensures a == b && m == n
  {
    var x, y := DecimalKey(a, m), DecimalKey(b, n);
    assert x[1..17] == RowDec.Signed(a, 16) && y[1..17] == RowDec.Signed(b, 16);
    assert x[17] == m && y[17] == n;
    Widths();
    SignedInjective(a, b, 16);
  }

  /** Decimal keys are equal exactly when the numbers are. */
  lemma {:induction false} DecimalKeyIff(k: Keying, u1: i128, s1: byte, u2: i128, s2: byte)
    ensures KeyOf(k, Decimal(u1, s1)) == KeyOf(k, Decimal(u2, s2)) <==> u1 * Pow10(s2) == u2 * Pow10(s1)
  {
    StrippedIff(u1, s1, u2, s2);
    var r1, r2 := Stripped(u1, s1), Stripped(u2, s2);
    if DecimalKey(r1.0, r1.1) == DecimalKey(r2.0, r2.1) {
      DecimalKeyInjective(r1.0, r1.1, r2.0, r2.1);
    }
  }

  /** Signed and unsigned integer keys are equal exactly when the integers are. */
  lemma {:induction false} IntegerKeyIff(k: Keying, v: Value, w: Value)
    requires (v.Int? || v.UInt?) && (w.Int? || w.UInt?)
    ensures KeyOf(k, v) == KeyOf(k, w) <==> IntegerOf(v) == IntegerOf(w)
  {
    var x, y := KeyOf(k, v), KeyOf(k, w);
    if x == y {
      assert x[1..] == y[1..];
      Widths();
      if x[0] == 1 {
        SignedInjective(IntegerOf(v), IntegerOf(w), 8);
      } else {
        LittleInjective(IntegerOf(v), IntegerOf(w), 8);
      }
    }
  }

  lemma {:induction false} SizedInjective(tag: byte, a: bytes, b: bytes)
    requires Sized(tag, a) == Sized(tag, b)
    ensures a == b
  {
    var x, y := Sized(tag, a), Sized(tag, b);
    assert x[5..] == a && y[5..] == b;
  }

  /** Text keys are equal exactly when the texts are, folded or byte for byte as the collation says. */
  lemma {:induction false} TextKeyIff(k: Keying, v: Value, w: Value, coll: Collation)
    requires (v.Text? || v.Json?) && (w.Text? || w.Json?)
    ensures KeyColl(k, v, coll) == KeyColl(k, w, coll)
       <==> if coll == Bin then v.s == w.s else k.fold(v.s) == k.fold(w.s)
  {
    if KeyColl(k, v, coll) == KeyColl(k, w, coll) {
      if coll == Bin { SizedInjective(4, v.s, w.s); } else { SizedInjective(4, k.fold(v.s), k.fold(w.s)); }
    }
  }

  /** The kinds of value whose keys can meet. */
  datatype Class = Nothing | Integer | Truth | Floating | Textual | Exact | Printed

  function ClassOf(v: Value): Class {
    match v
    case Null => Nothing
    case Int(_) => Integer
    case UInt(_) => Integer
    case Bool(_) => Truth
    case Float(_) => Floating
    case Text(_) => Textual
    case Json(_) => Textual
    case Decimal(_, _) => Exact
    case _ => Printed
  }

  /** The kind a key's tag stands for. */
  function TagClass(tag: byte): Class {
    match tag
    case 0 => Nothing
    case 1 => Integer
    case 6 => Integer
    case 2 => Truth
    case 3 => Floating
    case 4 => Textual
    case 7 => Exact
    case _ => Printed
  }

  /** Values of different kinds never share a key. */
  lemma {:induction false} ClassesApart(k: Keying, v: Value, w: Value, coll: Collation)
    requires KeyColl(k, v, coll) == KeyColl(k, w, coll)
    ensures ClassOf(v) == ClassOf(w)
  {
    assert KeyColl(k, v, coll) != [] && TagClass(KeyColl(k, v, coll)[0]) == ClassOf(v);
    assert KeyColl(k, w, coll) != [] && TagClass(KeyColl(k, w, coll)[0]) == ClassOf(w);
  }

  // ------------------------------------------------------------------ keys in a row

  /** The length of the key a text starts with, read off its tag. */
  function FirstLength(s: bytes): nat {
    if s == [] then 0
    else if s[0] == 0 then 1
    else if s[0] == 2 then 2
    else if s[0] == 7 then 18
    else if (s[0] == 4 || s[0] == 5) && |s| >= 5 then 5 + RowDec.FromLittle(s[1..5])
    else 9
  }

  lemma {:induction false} SizedLength(tag: byte, s: bytes, rest: bytes)
    requires tag == 4 || tag == 5
    ensures FirstLength(Sized(tag, s) + rest) == |Sized(tag, s)| <==> |s| < 0x1_0000_0000
  {
    var t := Sized(tag, s) + rest;
    assert t[1..5] == RowDec.LittleEndian(|s|, 4);
    Widths();
    RowDec.LittleBound(t[1..5]);
    if |s| < 0x1_0000_0000 {
      RowDec.LittleRoundTrip(|s|, 4);
    }
  }

  /** A key tells where it ends exactly when its length fits the four bytes it is written in. */
  lemma {:induction false} SelfDelimiting(k: Keying, v: Value, coll: Collation, rest: bytes)
    ensures FirstLength(KeyColl(k, v, coll) + rest) == |KeyColl(k, v, coll)| <==> Keyable(k, v, coll)
    ensures |KeyColl(k, v, coll)| > 0
  {
    match v
    case Text(s) => SizedLength(4, if coll == Bin then s else k.fold(s), rest);
    case Json(s) => SizedLength(4, if coll == Bin then s else k.fold(s), rest);
    case Blob(_) => SizedLength(5, k.debug(v), rest);
    case Vector(_) => SizedLength(5, k.debug(v), rest);
    case Date(_) => SizedLength(5, k.debug(v), rest);
    case DateTime(_) => SizedLength(5, k.debug(v), rest);
    case Time(_) => SizedLength(5, k.debug(v), rest);
    case _ =>
  }

  ghost predicate Delimited(x: bytes) {
    |x| > 0 && forall rest :: FirstLength(x + rest) == |x|
  }

  lemma {:induction false} ConcatFirst(xs: seq<bytes>)
    requires xs != []
    ensures Concat(xs) == xs[0] + Concat(xs[1..])
  {
    var n := |xs| - 1;
    if n == 0 {
      assert xs[..0] == [] && xs[1..] == [];
      assert [] + xs[0] == xs[0] + [];
    } else {
      ConcatFirst(xs[..n]);
      assert xs[..n][1..] == xs[1..][..n - 1];
      assert xs[..n][0] == xs[0];
    }
  }

  lemma {:induction false} SplitEqual(a: bytes, x: bytes, b: bytes, y: bytes)
    requires a + x == b + y && |a| == |b|
    ensures a == b && x == y
  {
    assert (a + x)[..|a|] == a && (b + y)[..|a|] == b && (a + x)[|a|..] == x && (b + y)[|a|..] == y;
  }

  /** Self-delimiting pieces can be told apart again. */
  lemma {:induction false} ConcatInjective(xs: seq<bytes>, ys: seq<bytes>)
    requires (forall i | 0 <= i < |xs| :: Delimited(xs[i])) && (forall i | 0 <= i < |ys| :: Delimited(ys[i]))
    requires Concat(xs) == Concat(ys)
    ensures xs == ys
  {
    if xs != [] { ConcatFirst(xs); }
    if ys != [] { ConcatFirst(ys); }
    if xs != [] && ys != [] {
      assert Delimited(xs[0]) && Delimited(ys[0]);
      SplitEqual(xs[0], Concat(xs[1..]), ys[0], Concat(ys[1..]));
      ConcatInjective(xs[1..], ys[1..]);
      assert xs == [xs[0]] + xs[1..] && ys == [ys[0]] + ys[1..];
    }
  }

  predicate RowKeyable(k: Keying, row: seq<Value>, colls: seq<Collation>) {
    forall i | 0 <= i < |row| :: Keyable(k, row[i], CollationAt(colls, i))
  }

  lemma {:induction false} KeyDelimited(k: Keying, v: Value, coll: Collation)
    requires Keyable(k, v, coll)
    ensures Delimited(KeyColl(k, v, coll))
  {
    var x := KeyColl(k, v, coll);
    SelfDelimiting(k, v, coll, []);
    forall rest ensures FirstLength(x + rest) == |x| {
      SelfDelimiting(k, v, coll, rest);
    }
  }

  /** Row keys are equal exactly when the rows have as many columns and their keys agree one by one. */
  lemma {:induction false} RowKeyIff(k: Keying, r1: seq<Value>, r2: seq<Value>, colls: seq<Collation>)
    requires RowKeyable(k, r1, colls) && RowKeyable(k, r2, colls)
    ensures RowKeyColl(k, r1, colls) == RowKeyColl(k, r2, colls) <==> Keys(k, r1, colls) == Keys(k, r2, colls)
  {
    var xs, ys := Keys(k, r1, colls), Keys(k, r2, colls);
    forall i | 0 <= i < |xs| ensures Delimited(xs[i]) {
      KeyDelimited(k, r1[i], CollationAt(colls, i));
    }
    forall i | 0 <= i < |ys| ensures Delimited(ys[i]) {
      KeyDelimited(k, r2[i], CollationAt(colls, i));
    }
    if Concat(xs) == Concat(ys) {
      ConcatInjective(xs, ys);
    }
  }

  /**
   * Past 2^32 bytes a length wraps around, and the keys of different rows can be equal: here a single text is the
   * key of another text, behind the key of the empty text.
   */
  lemma {:induction false} OverlongRows(k: Keying, t: bytes)
    requires |t| == 0xFFFF_FFFB
    ensures
      var one, two, colls := [Text(Sized(4, t))], [Text([]), Text(t)], [Bin, Bin];
      && RowKeyColl(k, one, colls) == RowKeyColl(k, two, colls) && Keys(k, one, colls) != Keys(k, two, colls)
      && !RowKeyable(k, one, colls) && RowKeyable(k, two, colls)
  {
    var s, colls := Sized(4, t), [Bin, Bin];
    var one, two := [Text(s)], [Text([]), Text(t)];
    LengthLost();
    assert Sized(4, s) == Sized(4, []) + s;
    assert Keys(k, one, colls) == [Sized(4, s)];
    assert Keys(k, two, colls) == [Sized(4, []), Sized(4, t)];
    ConcatPair(Sized(4, s), Sized(4, []), Sized(4, t));
    assert !Keyable(k, one[0], CollationAt(colls, 0));
    forall i | 0 <= i < |two| ensures Keyable(k, two[i], CollationAt(colls, i)) {}
  }

  lemma {:induction false} ConcatPair(x: bytes, y: bytes, z: bytes)
    ensures Concat([x]) == x && Concat([y, z]) == y + z
  {
    assert [x][..0] == [] && [y][..0] == [] && [y, z][..1] == [y];
    assert Concat([y]) == [] + y == y;
  }

  lemma {:induction false} LengthLost()
    ensures RowDec.LittleEndian(0x1_0000_0000, 4) == RowDec.LittleEndian(0, 4)
  {
    assert RowDec.LittleEndian(0x1_0000_0000, 4) == [0] + RowDec.LittleEndian(0x100_0000, 3);
    assert RowDec.LittleEndian(0x100_0000, 3) == [0] + RowDec.LittleEndian(0x1_0000, 2);
    assert RowDec.LittleEndian(0x1_0000, 2) == [0] + RowDec.LittleEndian(0x100, 1);
    assert RowDec.LittleEndian(0x100, 1) == [0] + RowDec.LittleEndian(1, 0);
    assert RowDec.LittleEndian(0, 4) == [0] + RowDec.LittleEndian(0, 3);
    assert RowDec.LittleEndian(0, 3) == [0] + RowDec.LittleEndian(0, 2);
    assert RowDec.LittleEndian(0, 2) == [0] + RowDec.LittleEndian(0, 1);
    assert RowDec.LittleEndian(0, 1) == [0] + RowDec.LittleEndian(0, 0);
  }

  lemma {:induction false} CoarserKey(k: Keying, v: Value, w: Value, coll: Collation)
    requires Keyable(k, v, coll) && Keyable(k, w, coll) && KeyColl(k, v, coll) == KeyColl(k, w, coll)
    ensures KeyOf(k, v) == KeyOf(k, w)
  {
    ClassesApart(k, v, w, coll);
    if coll == Bin && ClassOf(v) == Textual {
      TextKeyIff(k, v, w, Bin);
    }
  }

  /**
   * Rows of one group, whatever the columns' collations, have one key under the default collation: they are spilled
   * together.
   */
  lemma {:induction false} RoutedTogether(k: Keying, r1: seq<Value>, r2: seq<Value>, colls: seq<Collation>)
    requires RowKeyable(k, r1, colls) && RowKeyable(k, r2, colls)
             && RowKeyColl(k, r1, colls) == RowKeyColl(k, r2, colls)
    ensures RowKeyColl(k, r1, []) == RowKeyColl(k, r2, [])
  {
    RowKeyIff(k, r1, r2, colls);
    assert |r1| == |Keys(k, r1, colls)| == |Keys(k, r2, colls)| == |r2|;
    forall i | 0 <= i < |r1| ensures Keys(k, r1, [])[i] == Keys(k, r2, [])[i] {
      assert Keys(k, r1, colls)[i] == Keys(k, r2, colls)[i];
      CoarserKey(k, r1[i], r2[i], CollationAt(colls, i));
    }
    assert Keys(k, r1, []) == Keys(k, r2, []);
  }

  // --------------------------------------------------------------- folded comparison

  function Lower(c: byte): byte {
    if 0x41 <= c <= 0x5A then c + 32 else c
  }

  function LowerAll(s: bytes): (r: bytes)
    ensures |r| == |s| && forall i | 0 <= i < |s| :: r[i] == Lower(s[i])
  {
    if s == [] then [] else LowerAll(s[..|s| - 1]) + [Lower(s[|s| - 1])]
  }

  predicate IsAscii(s: bytes) {
    forall i | 0 <= i < |s| :: s[i] < 0x80
  }

  /** The twenty-six capital letters become small; nothing else changes. */
  lemma {:induction false} LowerLetters(c: byte)
    ensures
      var place := c - 'A' as int;
      Lower(c) == if 0 <= place < 26 then 'a' as int + place else c
  {
  }

  datatype Ordering = Lt | Eq | Gt

  /** The order of byte strings. */
  function Compare(a: bytes, b: bytes): Ordering {
    if a == b then Eq else if Less(a, b) then Lt else Gt
  }

  lemma {:induction false} ComparePrefix(a: bytes, b: bytes, i: nat)
    requires i <= |a| && i <= |b| && a[..i] == b[..i]
    ensures i < |a| && i < |b| && a[i] < b[i] ==> Compare(a, b) == Lt
    ensures i < |a| && i < |b| && b[i] < a[i] ==> Compare(a, b) == Gt
    ensures i == |a| && i < |b| ==> Compare(a, b) == Lt
    ensures i == |b| && i < |a| ==> Compare(a, b) == Gt
    ensures i == |a| == |b| ==> Compare(a, b) == Eq
  {
    assert a == a[..i] + a[i..] && b == b[..i] + b[i..];
    CommonPrefix(a[..i], a[i..], b[i..]);
    if i < |a| && i < |b| && a[i] != b[i] {
      assert a[i..][0] == a[i] && b[i..][0] == b[i];
    } else if i == |a| && i < |b| {
      assert a <= b;
      PrefixLess(a, b);
    } else if i == |b| && i < |a| {
      assert b <= a;
      PrefixLess(b, a);
      LessAsymmetric(b, a);
    } else if i == |a| == |b| {
      assert a[..i] == a && b[..i] == b;
    }
  }

  lemma {:induction false} AsciiFolds(fold: bytes -> bytes, a: bytes)
    requires forall s: bytes | (forall i | 0 <= i < |s| :: s[i] < 128) :: fold(s) == LowerAll(s)
    ensures IsAscii(a) ==> fold(a) == LowerAll(a)
  {
  }

  /** The comparison that avoids folding when both texts are ASCII: it is the order of the folded texts. */
  method FoldCmp(fold: bytes -> bytes, a: bytes, b: bytes) returns (r: Ordering)
    requires forall s: bytes | (forall i | 0 <= i < |s| :: s[i] < 128) :: fold(s) == LowerAll(s)
    ensures r == Compare(fold(a), fold(b))
  {
    if !IsAscii(a) || !IsAscii(b) { return Compare(fold(a), fold(b)); }
    AsciiFolds(fold, a);
    AsciiFolds(fold, b);
    r := LowerCmp(a, b);
  }

  /** The loop: byte by byte, lowered on the fly. */
  method LowerCmp(a: bytes, b: bytes) returns (r: Ordering)
    ensures r == Compare(LowerAll(a), LowerAll(b))
  {
    ghost var x, y := LowerAll(a), LowerAll(b);
    var n := if |a| <= |b| then |a| else |b|;
    for i := 0 to n
      invariant x[..i] == y[..i]
    {
      ComparePrefix(x, y, i);
      var l, m := Lower(a[i]), Lower(b[i]);
      if l != m { return if l < m then Lt else Gt; }
      assert x[..i + 1] == x[..i] + [x[i]] && y[..i + 1] == y[..i] + [y[i]];
    }
    ComparePrefix(x, y, n);
    return if |a| < |b| then Lt else if |a| > |b| then Gt else Eq;
  }
}
