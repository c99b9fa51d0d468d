/** Byte strings in the order of the key-value store, and ordered scans over them. */
module Bytes {
  type byte = x: int | 0 <= x < 256
  type bytes = seq<byte>

  /** Byte order: the order in which the store keeps its keys. */
  predicate Less(a: bytes, b: bytes) {
    b != [] && (a == [] || a[0] < b[0] || (a[0] == b[0] && Less(a[1..], b[1..])))
  }

  predicate AtMost(a: bytes, b: bytes) {
    a == b || Less(a, b)
  }

  /** The bytes of a text in ASCII. */
  function Spelled(s: string): (r: bytes)
    requires forall i | 0 <= i < |s| :: s[i] < 128 as char
    ensures |r| == |s| && forall i | 0 <= i < |s| :: r[i] == s[i] as int
  {
    seq(|s|, i requires 0 <= i < |s| => s[i] as int)
  }

  /** How many values `w` bytes hold. */
  function Pow256(w: nat): (p: nat)
    ensures p > 0
  {
    if w == 0 then 1 else 256 * Pow256(w - 1)
  }

  lemma {:induction false} Widths()
    ensures Pow256(4) == 0x1_0000_0000
    ensures Pow256(8) == 0x1_0000_0000_0000_0000
    ensures Pow256(16) == 0x1_0000_0000_0000_0000_0000_0000_0000_0000
  {
    assert Pow256(1) == 256 && Pow256(2) == 0x1_0000 && Pow256(3) == 0x100_0000;
    assert Pow256(5) == 0x100_0000_0000 && Pow256(6) == 0x1_0000_0000_0000 && Pow256(7) == 0x100_0000_0000_0000;
    assert Pow256(9) == 0x100_0000_0000_0000_0000;
    assert Pow256(10) == 0x1_0000_0000_0000_0000_0000;
    assert Pow256(11) == 0x100_0000_0000_0000_0000_0000;
    assert Pow256(12) == 0x1_0000_0000_0000_0000_0000_0000;
    assert Pow256(13) == 0x100_0000_0000_0000_0000_0000_0000;
    assert Pow256(14) == 0x1_0000_0000_0000_0000_0000_0000_0000;
    assert Pow256(15) == 0x100_0000_0000_0000_0000_0000_0000_0000;
  }

  /** Neither is a prefix of the other: they differ at a common position. */
  ghost predicate Diverge(a: bytes, b: bytes) {
    !(a <= b) && !(b <= a)
  }

  lemma {:induction false} LessIrreflexive(a: bytes)
    ensures !Less(a, a)
  {
    if a != [] {
      LessIrreflexive(a[1..]);
    }
  }

  lemma {:induction false} LessTransitive(a: bytes, b: bytes, c: bytes)
    requires Less(a, b) && Less(b, c)
    ensures Less(a, c)
  {
    if a != [] && a[0] == b[0] == c[0] {
      LessTransitive(a[1..], b[1..], c[1..]);
    }
  }

  lemma {:induction false} LessTotal(a: bytes, b: bytes)
    ensures Less(a, b) || a == b || Less(b, a)
  {
    if a != [] && b != [] && a[0] == b[0] {
      LessTotal(a[1..], b[1..]);
      assert a == [a[0]] + a[1..] && b == [b[0]] + b[1..];
    }
  }

  lemma {:induction false} LessAsymmetric(a: bytes, b: bytes)
    requires Less(a, b)
    ensures !Less(b, a) && a != b
  {
    LessIrreflexive(a);
    if Less(b, a) {
      LessTransitive(a, b, a);
    }
  }

  lemma {:induction false} CommonPrefix(p: bytes, a: bytes, b: bytes)
    ensures Less(p + a, p + b) <==> Less(a, b)
  {
    if p == [] {
      assert p + a == a && p + b == b;
    } else {
      assert (p + a)[1..] == p[1..] + a && (p + b)[1..] == p[1..] + b;
      CommonPrefix(p[1..], a, b);
    }
  }

  /** What follows a difference does not matter. */
  lemma {:induction false} DivergeDecides(a: bytes, b: bytes, s: bytes, t: bytes)
    requires Diverge(a, b)
    ensures Less(a + s, b + t) <==> Less(a, b)
    ensures Diverge(a + s, b + t)
  {
    if a[0] == b[0] {
      assert Diverge(a[1..], b[1..]) by {
        assert a == [a[0]] + a[1..] && b == [b[0]] + b[1..];
      }
      DivergeDecides(a[1..], b[1..], s, t);
      assert (a + s)[1..] == a[1..] + s && (b + t)[1..] == b[1..] + t;
    } else {
      assert (a + s)[0] == a[0] && (b + t)[0] == b[0];
    }
  }

  lemma {:induction false} PrefixLess(a: bytes, b: bytes)
    requires a < b
    ensures Less(a, b)
  {
    if a != [] {
      PrefixLess(a[1..], b[1..]);
    }
  }

  /** Appending a zero byte gives the least key above. */
  lemma {:induction false} Successor(k: bytes, x: bytes)
    ensures AtMost(k + [0], x) <==> Less(k, x)
  {
    if k == [] {
      if x != [] && x[0] == 0 {
        assert x == [0] + x[1..];
        assert x[1..] == [] ==> x == k + [0];
        assert x[1..] != [] ==> Less((k + [0])[1..], x[1..]);
      }
    } else {
      assert (k + [0])[1..] == k[1..] + [0];
      if x != [] && x[0] == k[0] {
        Successor(k[1..], x[1..]);
        assert x == [x[0]] + x[1..] && k + [0] == [k[0]] + (k[1..] + [0]);
      }
    }
  }
}

/** The store as an ordered sequence of entries, and the two scans every reader uses. */
module Store {
  import opened Wrappers
  import opened Bytes

  type Entry = (bytes, bytes)

  ghost predicate Ascending(db: seq<Entry>) {
    forall i, j | 0 <= i < j < |db| :: Less(db[i].0, db[j].0)
  }

  /** The entries whose key satisfies `p`, in key order. */
  function Where(db: seq<Entry>, p: bytes -> bool): (r: seq<Entry>)
    ensures forall e | e in r :: e in db && p(e.0)
    ensures forall e | e in db && p(e.0) :: e in r
  {
    if db == [] then []
    else if p(db[0].0) then [db[0]] + Where(db[1..], p)
    else Where(db[1..], p)
  }

  lemma {:induction false} WhereAscending(db: seq<Entry>, p: bytes -> bool)
    requires Ascending(db)
    ensures Ascending(Where(db, p))
  {
    if db != [] {
      WhereAscending(db[1..], p);
      var rest := Where(db[1..], p);
      forall e | e in rest ensures Less(db[0].0, e.0) {
        var i :| 0 <= i < |db[1..]| && db[1..][i] == e;
        assert db[i + 1] == e;
      }
    }
  }

  /** Only the keys that occur matter. */
  lemma {:induction false} WhereSame(db: seq<Entry>, p: bytes -> bool, q: bytes -> bool)
    requires forall e | e in db :: p(e.0) <==> q(e.0)
    ensures Where(db, p) == Where(db, q)
  {
    if db != [] {
      WhereSame(db[1..], p, q);
    }
  }

  lemma {:induction false} WhereNone(db: seq<Entry>, p: bytes -> bool)
    requires forall e | e in db :: !p(e.0)
    ensures Where(db, p) == []
  {
    if Where(db, p) != [] {
      assert Where(db, p)[0] in Where(db, p);
    }
  }

  /** Moving a scan's start past the `i`th hit leaves exactly the later hits. */
  lemma {:induction false} WhereAfter(db: seq<Entry>, p: bytes -> bool, q: bytes -> bool, i: nat)
    requires Ascending(db) && i < |Where(db, p)|
    requires forall k :: q(k) <==> p(k) && Less(Where(db, p)[i].0, k)
    ensures Where(db, q) == Where(db, p)[i + 1..]
  {
    var hits := Where(db, p);
    WhereAscending(db, p);
    assert p(db[0].0) ==> hits[0] == db[0];
    if !p(db[0].0) {
      WhereAfter(db[1..], p, q, i);
    } else if i > 0 {
      LessAsymmetric(hits[0].0, hits[i].0);
      assert hits[1..][i - 1] == hits[i];
      WhereAfter(db[1..], p, q, i - 1);
    } else {
      LessIrreflexive(db[0].0);
      forall e | e in db[1..] ensures Less(db[0].0, e.0) {
        var j :| 0 <= j < |db[1..]| && db[1..][j] == e;
        assert db[j + 1] == e;
      }
      WhereSame(db[1..], p, q);
    }
  }

  function Take<T>(s: seq<T>, n: nat): seq<T> {
    if |s| <= n then s else s[..n]
  }

  predicate Between(start: bytes, end: bytes, k: bytes) {
    AtMost(start, k) && Less(k, end)
  }

  predicate Under(prefix: bytes, after: Option<bytes>, k: bytes) {
    prefix <= k && (after.Some? ==> Less(after.value, k))
  }

  /** The entries of `[start, end)`. */
  function RangeHits(db: seq<Entry>, start: bytes, end: bytes): seq<Entry> {
    Where(db, k => Between(start, end, k))
  }

  /** The entries under `prefix`, strictly after the cursor. */
  function UnderHits(db: seq<Entry>, prefix: bytes, after: Option<bytes>): seq<Entry> {
    Where(db, k => Under(prefix, after, k))
  }

  function ScanRange(db: seq<Entry>, start: bytes, end: bytes, limit: nat): seq<Entry> {
    Take(RangeHits(db, start, end), limit)
  }

  function ScanBatch(db: seq<Entry>, prefix: bytes, after: Option<bytes>, limit: nat): seq<Entry> {
    Take(UnderHits(db, prefix, after), limit)
  }

  /** What follows a batch of a range scan is what a scan from its last key's successor finds. */
  lemma {:induction false} RangeAdvance(db: seq<Entry>, start: bytes, end: bytes, n: nat)
    requires Ascending(db) && 0 < n <= |RangeHits(db, start, end)|
    ensures RangeHits(db, RangeHits(db, start, end)[n - 1].0 + [0], end) == RangeHits(db, start, end)[n..]
  {
    var p := k => Between(start, end, k);
    var last := Where(db, p)[n - 1].0;
    var q := k => Between(last + [0], end, k);
    assert p(last);
    forall k ensures q(k) <==> p(k) && Less(last, k) {
      Successor(last, k);
      if start != last && Less(last, k) { LessTransitive(start, last, k); }
    }
    WhereAfter(db, p, q, n - 1);
  }

  /** What follows a batch of a prefix scan is what the cursor on its last key finds. */
  lemma {:induction false} CursorAdvance(db: seq<Entry>, prefix: bytes, after: Option<bytes>, n: nat)
    requires Ascending(db) && 0 < n <= |UnderHits(db, prefix, after)|
    ensures UnderHits(db, prefix, Some(UnderHits(db, prefix, after)[n - 1].0)) == UnderHits(db, prefix, after)[n..]
  {
    var p := k => Under(prefix, after, k);
    var last := Where(db, p)[n - 1].0;
    var q := k => Under(prefix, Some(last), k);
    assert p(last);
    forall k ensures q(k) <==> p(k) && Less(last, k) {
      if after.Some? && Less(last, k) { LessTransitive(after.value, last, k); }
    }
    WhereAfter(db, p, q, n - 1);
  }
}
