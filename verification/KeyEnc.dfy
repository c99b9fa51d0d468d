/** Order-preserving key encoding (crates/elyra-engine/src/keyenc.rs). */
module KeyEnc {
  import opened Wrappers
  import opened Bytes
  import opened Values

  /** The folding of the default collation; nothing below depends on what it is. */
  type Fold = bytes -> bytes

  // ------------------------------------------------------------ fixed-width parts

  /** `to_be_bytes` of an unsigned integer of `w` bytes. */
  function BigEndian(n: nat, w: nat): (r: bytes)
    ensures |r| == w
  {
    if w == 0 then [] else BigEndian(n / 256, w - 1) + [n % 256]
  }

  lemma {:induction false} EqualLengthsDiverge(a: bytes, b: bytes)
    requires |a| == |b| && a != b
    ensures Diverge(a, b)
  {
  }

  lemma {:induction false} BigEndianOrder(a: nat, b: nat, w: nat)
    requires a < Pow256(w) && b < Pow256(w)
    ensures BigEndian(a, w) == BigEndian(b, w) <==> a == b
    ensures Less(BigEndian(a, w), BigEndian(b, w)) <==> a < b
  {
    if w > 0 {
      var ha, hb := BigEndian(a / 256, w - 1), BigEndian(b / 256, w - 1);
      BigEndianOrder(a / 256, b / 256, w - 1);
      assert (ha + [a % 256])[..w - 1] == ha && (hb + [b % 256])[..w - 1] == hb;
      assert (ha + [a % 256])[w - 1] == a % 256 && (hb + [b % 256])[w - 1] == b % 256;
      if a / 256 == b / 256 {
        CommonPrefix(ha, [a % 256], [b % 256]);
      } else {
        EqualLengthsDiverge(ha, hb);
        DivergeDecides(ha, hb, [a % 256], [b % 256]);
      }
    }
  }

  /** `(i as uN) ^ (1 << (N - 1))`, for `half == 1 << (N - 1)`: the cast wraps, the exclusive or flips the top bit. */
  function FlipSign(i: int, half: int): (u: nat)
    requires -half <= i < half
    ensures u == i + half
  {
    var cast := if i < 0 then i + 2 * half else i;
    if cast >= half then cast - half else cast + half
  }

  // ------------------------------------------------------------------------- text

  /** Zero bytes become 00 01, so that the terminator 00 00 sorts below every continuation. */
  function Escaped(s: bytes): bytes {
    if s == [] then [] else (if s[0] == 0 then [0, 1] else [s[0]]) + Escaped(s[1..])
  }

  function Terminated(s: bytes): bytes {
    Escaped(s) + [0, 0]
  }

  /** The first two bytes tell whether the text is empty and, if not, its first byte. */
  lemma {:induction false} TextHead(s: bytes)
    ensures |Terminated(s)| >= 2
    ensures s == [] ==> Terminated(s) == [0, 0]
    ensures s != [] && s[0] == 0 ==> Terminated(s)[0] == 0 && Terminated(s)[1] == 1
    ensures s != [] && s[0] != 0 ==> Terminated(s)[0] == s[0]
    ensures s != [] ==> Terminated(s) == (if s[0] == 0 then [0, 1] else [s[0]]) + Terminated(s[1..])
  {
  }

  lemma {:induction false} FirstTwo(a: bytes, b: bytes)
    requires |a| >= 2 && |b| >= 2 && (a[0] != b[0] || a[1] != b[1])
    ensures Diverge(a, b)
    ensures Less(a, b) <==> a[0] < b[0] || (a[0] == b[0] && a[1] < b[1])
  {
    assert a[1..][0] == a[1] && b[1..][0] == b[1];
  }

  lemma {:induction false} TextOrder(s: bytes, t: bytes)
    ensures Terminated(s) == Terminated(t) <==> s == t
    ensures s != t ==> Diverge(Terminated(s), Terminated(t))
    ensures Less(Terminated(s), Terminated(t)) <==> Less(s, t)
  {
    var x, y := Terminated(s), Terminated(t);
    TextHead(s);
    TextHead(t);
    if s != [] && t != [] && s[0] == t[0] {
      var head := if s[0] == 0 then [0, 1] else [s[0]];
      TextOrder(s[1..], t[1..]);
      SameHead(head, Terminated(s[1..]), Terminated(t[1..]));
      assert s == [s[0]] + s[1..] && t == [t[0]] + t[1..];
    } else if s == t {
      LessIrreflexive(s);
      LessIrreflexive(x);
    } else {
      FirstTwo(x, y);
    }
  }

  lemma {:induction false} SameHead(p: bytes, a: bytes, b: bytes)
    ensures p + a == p + b <==> a == b
    ensures Diverge(a, b) ==> Diverge(p + a, p + b)
    ensures Less(p + a, p + b) <==> Less(a, b)
  {
    CommonPrefix(p, a, b);
    assert (p + a)[|p|..] == a && (p + b)[|p|..] == b;
    assert p + a <= p + b ==> (p + b)[|p|..][..|a|] == a;
    assert p + b <= p + a ==> (p + a)[|p|..][..|b|] == b;
  }

  // ------------------------------------------------------------------- components

  /** The bytes text contributes to a key under a collation. */
  function Keyed(s: bytes, coll: Collation, fold: Fold): bytes {
    if coll.Bin? then s else fold(s)
  }

  /** One component's encoding; `None` where the source reports an unsupported key type. */
  function Component(v: Value, coll: Collation, fold: Fold): Option<bytes> {
    match v
    case Int(i) => Some(BigEndian(FlipSign(i, 0x8000_0000_0000_0000), 8))
    case UInt(u) => Some(BigEndian(u, 8))
    case Date(d) => Some(BigEndian(FlipSign(d, 0x8000_0000), 4))
    case DateTime(t) => Some(BigEndian(FlipSign(t, 0x8000_0000_0000_0000), 8))
    case Decimal(u, _) => Some(BigEndian(FlipSign(u, 0x8000_0000_0000_0000_0000_0000_0000_0000), 16))
    case Time(t) => Some(BigEndian(FlipSign(t, 0x8000_0000_0000_0000), 8))
    case Bool(b) => Some([if b then 1 else 0])
    case Text(s) => Some(Terminated(Keyed(s, coll, fold)))
    case Json(s) => Some(Terminated(Keyed(s, coll, fold)))
    case _ => None
  }

  /** Values one key column can hold side by side: one type, and one scale for DECIMAL. */
  predicate SameKind(a: Value, b: Value) {
    match (a, b)
    case (Int(_), Int(_)) => true
    case (UInt(_), UInt(_)) => true
    case (Date(_), Date(_)) => true
    case (DateTime(_), DateTime(_)) => true
    case (Decimal(_, s), Decimal(_, t)) => s == t
    case (Time(_), Time(_)) => true
    case (Bool(_), Bool(_)) => true
    case (Text(_), Text(_)) => true
    case (Json(_), Json(_)) => true
    case _ => false
  }

  /** SQL `<` between two values of one kind (`compare_coll`). */
  ghost predicate SqlLess(a: Value, b: Value, coll: Collation, fold: Fold)
    requires SameKind(a, b)
  {
    match (a, b)
    case (Int(x), Int(y)) => x < y
    case (UInt(x), UInt(y)) => x < y
    case (Date(x), Date(y)) => x < y
    case (DateTime(x), DateTime(y)) => x < y
    case (Decimal(x, _), Decimal(y, _)) => x < y
    case (Time(x), Time(y)) => x < y
    case (Bool(x), Bool(y)) => !x && y
    case (Text(x), Text(y)) => Less(Keyed(x, coll, fold), Keyed(y, coll, fold))
    case (Json(x), Json(y)) => Less(Keyed(x, coll, fold), Keyed(y, coll, fold))
  }

  /** SQL equality between two values of one kind. */
  ghost predicate SqlEqual(a: Value, b: Value, coll: Collation, fold: Fold)
    requires SameKind(a, b)
  {
    if a.Text? || a.Json? then Keyed(a.s, coll, fold) == Keyed(b.s, coll, fold) else a == b
  }

  /** Exactly the values that can be in a key are of their own kind. */
  lemma {:induction false} KindsMean(v: Value, coll: Collation, fold: Fold)
    ensures SameKind(v, v) <==> Component(v, coll, fold).Some?
  {
  }

  lemma {:induction false} SignedOrder(x: int, y: int, half: int, w: nat)
    requires -half <= x < half && -half <= y < half && 2 * half == Pow256(w)
    ensures
      var a, b := BigEndian(FlipSign(x, half), w), BigEndian(FlipSign(y, half), w);
      (a == b <==> x == y) && (x != y ==> Diverge(a, b)) && (Less(a, b) <==> x < y)
  {
    var a, b := BigEndian(FlipSign(x, half), w), BigEndian(FlipSign(y, half), w);
    BigEndianOrder(FlipSign(x, half), FlipSign(y, half), w);
    if x != y {
      EqualLengthsDiverge(a, b);
    }
  }

  /** One component: equal bytes exactly for SQL-equal values, otherwise a difference that decides SQL order. */
  lemma {:induction false} ComponentOrder(a: Value, b: Value, coll: Collation, fold: Fold)
    requires SameKind(a, b)
    ensures Component(a, coll, fold).Some? && Component(b, coll, fold).Some?
    ensures
      var x, y := Component(a, coll, fold).value, Component(b, coll, fold).value;
      && (x == y <==> SqlEqual(a, b, coll, fold))
      && (x != y ==> Diverge(x, y))
      && (Less(x, y) <==> SqlLess(a, b, coll, fold))
  {
    Widths();
    match (a, b)
    case (Int(x), Int(y)) => SignedOrder(x, y, 0x8000_0000_0000_0000, 8);
    case (UInt(x), UInt(y)) =>
      BigEndianOrder(x, y, 8);
      if x != y { EqualLengthsDiverge(BigEndian(x, 8), BigEndian(y, 8)); }
    case (Date(x), Date(y)) => SignedOrder(x, y, 0x8000_0000, 4);
    case (DateTime(x), DateTime(y)) => SignedOrder(x, y, 0x8000_0000_0000_0000, 8);
    case (Decimal(x, _), Decimal(y, _)) => SignedOrder(x, y, 0x8000_0000_0000_0000_0000_0000_0000_0000, 16);
    case (Time(x), Time(y)) => SignedOrder(x, y, 0x8000_0000_0000_0000, 8);
    case (Bool(_), Bool(_)) =>
    case (Text(x), Text(y)) => TextOrder(Keyed(x, coll, fold), Keyed(y, coll, fold));
    case (Json(x), Json(y)) => TextOrder(Keyed(x, coll, fold), Keyed(y, coll, fold));
  }

  // ----------------------------------------------------------------------- tuples

  /** The concatenation of the components of a tuple (`encode_key_coll`). */
  function Key(vals: seq<Value>, colls: seq<Collation>, fold: Fold): Option<bytes> {
    if vals == [] then Some([]) else
    var n := |vals| - 1;
    var init :- Key(vals[..n], colls, fold);
    var last :- Component(vals[n], CollationAt(colls, n), fold);
    Some(init + last)
  }

  /** A key is the components' bytes one after the other, each under its own collation, Ci where none is given. */
  lemma {:induction false} KeyParts(vals: seq<Value>, v: Value, colls: seq<Collation>, fold: Fold)
    ensures
      var coll := if |vals| < |colls| then colls[|vals|] else Ci;
      var last := if (v.Text? || v.Json?) && coll == Ci then Component(Text(fold(v.s)), Bin, fold)
                  else Component(v, coll, fold);
      Key(vals + [v], colls, fold) ==
      if Key(vals, colls, fold).Some? && last.Some? then Some(Key(vals, colls, fold).value + last.value) else None
  {
    assert (vals + [v])[..|vals|] == vals;
  }

  ghost predicate SameKinds(a: seq<Value>, b: seq<Value>) {
    |a| == |b| && forall i | 0 <= i < |a| :: SameKind(a[i], b[i])
  }

  ghost predicate TupleEqual(a: seq<Value>, b: seq<Value>, colls: seq<Collation>, fold: Fold)
    requires SameKinds(a, b)
  {
    forall i | 0 <= i < |a| :: SqlEqual(a[i], b[i], CollationAt(colls, i), fold)
  }

  /** Lexicographic SQL order: the first column that differs decides. */
  ghost predicate TupleLess(a: seq<Value>, b: seq<Value>, colls: seq<Collation>, fold: Fold)
    requires SameKinds(a, b)
  {
    exists i | 0 <= i < |a| ::
      SqlLess(a[i], b[i], CollationAt(colls, i), fold) && TupleEqual(a[..i], b[..i], colls, fold)
  }

  /**
   * Key encoding is an order embedding: two same-typed tuples have equal encodings exactly when they are
   * equal under their collations, no encoding is a prefix of a different one, and byte order is SQL order.
   */
  lemma {:induction false} KeyOrder(a: seq<Value>, b: seq<Value>, colls: seq<Collation>, fold: Fold)
    requires SameKinds(a, b)
    ensures Key(a, colls, fold).Some? && Key(b, colls, fold).Some?
    ensures
      var x, y := Key(a, colls, fold).value, Key(b, colls, fold).value;
      && (x == y <==> TupleEqual(a, b, colls, fold))
      && (x != y ==> Diverge(x, y))
      && (Less(x, y) <==> TupleLess(a, b, colls, fold))
  {
    if a != [] {
      var n := |a| - 1;
      var coll := CollationAt(colls, n);
      KeyOrder(a[..n], b[..n], colls, fold);
      ComponentOrder(a[n], b[n], coll, fold);
      var p, q := Key(a[..n], colls, fold).value, Key(b[..n], colls, fold).value;
      var x, y := Component(a[n], coll, fold).value, Component(b[n], coll, fold).value;
      EqualSnoc(a, b, colls, fold);
      LessSnoc(a, b, colls, fold);
      if p == q {
        SameHead(p, x, y);
        LessIrreflexive(p);
      } else {
        DivergeDecides(p, q, x, y);
      }
    }
  }

  /** Equality of tuples, split at the last column. */
  lemma {:induction false} EqualSnoc(a: seq<Value>, b: seq<Value>, colls: seq<Collation>, fold: Fold)
    requires SameKinds(a, b) && a != []
    ensures
      var n := |a| - 1;
      TupleEqual(a, b, colls, fold) <==>
      (TupleEqual(a[..n], b[..n], colls, fold) && SqlEqual(a[n], b[n], CollationAt(colls, n), fold))
  {
  }

  /** The column that decides, if there is one, is the last or an earlier one. */
  lemma {:induction false} LessSnoc(a: seq<Value>, b: seq<Value>, colls: seq<Collation>, fold: Fold)
    requires SameKinds(a, b) && a != []
    ensures
      var n := |a| - 1;
      TupleLess(a, b, colls, fold) <==>
      (TupleLess(a[..n], b[..n], colls, fold)
       || (TupleEqual(a[..n], b[..n], colls, fold) && SqlLess(a[n], b[n], CollationAt(colls, n), fold)))
  {
    var n := |a| - 1;
    var p, q := a[..n], b[..n];
    forall i | 0 <= i < n ensures p[i] == a[i] && q[i] == b[i] && p[..i] == a[..i] && q[..i] == b[..i] {
    }
    if i :| 0 <= i < n && SqlLess(p[i], q[i], CollationAt(colls, i), fold) && TupleEqual(p[..i], q[..i], colls, fold) {
      assert SqlLess(a[i], b[i], CollationAt(colls, i), fold) && TupleEqual(a[..i], b[..i], colls, fold);
    }
    if i :|
      0 <= i < |a| && SqlLess(a[i], b[i], CollationAt(colls, i), fold) && TupleEqual(a[..i], b[..i], colls, fold)
    {
      assert i < n ==> SqlLess(p[i], q[i], CollationAt(colls, i), fold) && TupleEqual(p[..i], q[..i], colls, fold);
    }
  }

  /** A tuple's encoding starts with the encoding of each of its leading parts. */
  lemma {:induction false} KeyPrefix(vals: seq<Value>, k: nat, colls: seq<Collation>, fold: Fold)
    requires k <= |vals| && Key(vals, colls, fold).Some?
    ensures Key(vals[..k], colls, fold).Some?
    ensures Key(vals[..k], colls, fold).value <= Key(vals, colls, fold).value
  {
    if k < |vals| {
      var n := |vals| - 1;
      KeyPrefix(vals[..n], k, colls, fold);
      assert vals[..n][..k] == vals[..k];
    } else {
      assert vals[..k] == vals;
    }
  }

  // ------------------------------------------------------ the buffer-filling loops

  /** Appends the escaped and terminated text, byte by byte. */
  method AppendText(s: bytes, out: bytes) returns (r: bytes)
    ensures r == out + Terminated(s)
  {
    r := out;
    assert s[0..] == s;
    for i := 0 to |s|
      invariant r + Escaped(s[i..]) == out + Escaped(s)
    {
      assert s[i..][1..] == s[i + 1..];
      ghost var step: bytes := if s[i] == 0 then [0, 1] else [s[i]];
      assert r + (step + Escaped(s[i + 1..])) == (r + step) + Escaped(s[i + 1..]);
      if s[i] == 0 {
        r := r + [0, 1];
      } else {
        r := r + [s[i]];
      }
    }
    assert s[|s|..] == [] && s[0..] == s;
    assert r == out + Escaped(s);
    r := r + [0, 0];
  }

  method EncodeKeyColl(values: seq<Value>, colls: seq<Collation>, fold: Fold) returns (r: Option<bytes>)
    ensures r == Key(values, colls, fold)
  {
    var out: bytes := [];
    for i := 0 to |values|
      invariant Key(values[..i], colls, fold) == Some(out)
    {
      assert values[..i + 1][..i] == values[..i];
      var v, coll := values[i], CollationAt(colls, i);
      if v.Text? || v.Json? {
        out := AppendText(Keyed(v.s, coll, fold), out);
      } else {
        var part := Component(v, coll, fold);
        if part.None? {
          KeyFails(values, i, colls, fold);
          return None;
        }
        out := out + part.value;
      }
    }
    assert values[..|values|] == values;
    return Some(out);
  }

  lemma {:induction false} KeyFails(values: seq<Value>, i: nat, colls: seq<Collation>, fold: Fold)
    requires i < |values| && Component(values[i], CollationAt(colls, i), fold).None?
    ensures Key(values, colls, fold).None?
  {
    var n := |values| - 1;
    if i < n {
      KeyFails(values[..n], i, colls, fold);
    }
  }

  /** Selected columns of a row, as a tuple; `None` if a column is outside the row. */
  function Selected(row: seq<Value>, columns: seq<nat>): Option<seq<Value>> {
    if forall i | 0 <= i < |columns| :: columns[i] < |row| then
      Some(seq(|columns|, i requires 0 <= i < |columns| && columns[i] < |row| => row[columns[i]]))
    else None
  }

  /** Encoding straight from the row gives the encoding of the materialised tuple. */
  method EncodeColumnsColl(row: seq<Value>, columns: seq<nat>, colls: seq<Collation>, fold: Fold)
    returns (r: Option<bytes>)
    ensures r == match Selected(row, columns) case None => None case Some(vals) => Key(vals, colls, fold)
  {
    var out: bytes := [];
    ghost var done: seq<Value> := [];
    for i := 0 to |columns|
      invariant |done| == i && forall j | 0 <= j < i :: columns[j] < |row| && done[j] == row[columns[j]]
      invariant Key(done, colls, fold) == Some(out)
    {
      if columns[i] >= |row| {
        return None;
      }
      var part := Component(row[columns[i]], CollationAt(colls, i), fold);
      if part.None? {
        if Selected(row, columns).Some? {
          KeyFails(Selected(row, columns).value, i, colls, fold);
        }
        return None;
      }
      ghost var next := done + [row[columns[i]]];
      assert next[..i] == done;
      done := next;
      out := out + part.value;
    }
    assert Selected(row, columns).value == done;
    return Some(out);
  }
}
