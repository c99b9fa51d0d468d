/** The key prefixes of indexes (crates/elyra-engine/src/index.rs). */
module IndexNames {
  import opened Bytes
  import opened Values
  import opened KeyEnc
  import opened Store
  import opened Index
  import opened Products

  // `index::`, `indexnull::` and `::` in ASCII.
  const INDEX: bytes := [105, 110, 100, 101, 120, 58, 58]
  const INDEX_NULL: bytes := [105, 110, 100, 101, 120, 110, 117, 108, 108, 58, 58]
  const SEPARATOR: bytes := [58, 58]

  function IndexPrefix(table: bytes, index: bytes): bytes {
    INDEX + Name(table, index)
  }

  function NullPrefix(table: bytes, index: bytes): bytes {
    INDEX_NULL + Name(table, index)
  }

  /** Both names, each with its separator. */
  function Name(table: bytes, index: bytes): bytes {
    table + SEPARATOR + index + SEPARATOR
  }

  /** The prefixes, spelled out. */
  lemma {:induction false} PrefixesSpelled(table: bytes, index: bytes)
    ensures IndexPrefix(table, index) == Spelled("index::") + table + Spelled("::") + index + Spelled("::")
    ensures NullPrefix(table, index) == Spelled("indexnull::") + table + Spelled("::") + index + Spelled("::")
  {
    assert INDEX == Spelled("index::") && INDEX_NULL == Spelled("indexnull::") && SEPARATOR == Spelled("::");
  }

  /** The real prefixes have exact upper bounds, whatever the names. */
  lemma {:induction false} PrefixesBounded(table: bytes, index: bytes)
    ensures SomeBelowFF(IndexPrefix(table, index)) && SomeBelowFF(NullPrefix(table, index))
  {
    assert IndexPrefix(table, index)[0] == 105 && NullPrefix(table, index)[0] == 105;
  }

  // --------------------------------------------------------------- shared prefixes

  /** The second table's name reaches into the first index's name: by one colon, or over a whole separator. */
  ghost predicate Overlaps(t1: bytes, i1: bytes, t2: bytes, i2: bytes) {
    || (t2 == t1 + [58] && i1 == [58] + i2)
    || exists m :: t2 == t1 + SEPARATOR + m && i1 == m + SEPARATOR + i2
  }

  lemma {:induction false} OverlapShares(t1: bytes, i1: bytes, t2: bytes, i2: bytes)
    requires Overlaps(t1, i1, t2, i2)
    ensures Name(t1, i1) == Name(t2, i2)
  {
    if t2 == t1 + [58] && i1 == [58] + i2 {
      assert t1 + SEPARATOR + i1 == t1 + [58, 58, 58] + i2 == t2 + SEPARATOR + i2;
    } else {
      var m :| t2 == t1 + SEPARATOR + m && i1 == m + SEPARATOR + i2;
      assert t1 + SEPARATOR + i1 == t1 + SEPARATOR + m + SEPARATOR + i2 == t2 + SEPARATOR + i2;
    }
  }

  lemma {:induction false} SharedOverlaps(t1: bytes, i1: bytes, t2: bytes, i2: bytes)
    requires Name(t1, i1) == Name(t2, i2) && |t1| < |t2|
    ensures Overlaps(t1, i1, t2, i2)
  {
    var all := Name(t1, i1);
    var n := |all| - 2;
    assert all[..n] == t1 + SEPARATOR + i1 && all[..n] == t2 + SEPARATOR + i2;
    var body := all[..n];
    assert body[..|t1|] == t1 && body[..|t2|] == t2;
    assert body[|t1|..|t1| + 2] == SEPARATOR && body[|t1| + 2..] == i1;
    assert body[|t2|..|t2| + 2] == SEPARATOR && body[|t2| + 2..] == i2;
    if |t2| == |t1| + 1 {
      assert t2 == t1 + [body[|t1|]] && body[|t1|] == SEPARATOR[0];
      assert i1 == [body[|t1| + 2]] + i2 && body[|t1| + 2] == body[|t2| + 1] == SEPARATOR[1];
    } else {
      var m := body[|t1| + 2..|t2|];
      assert t2 == t1 + SEPARATOR + m;
      assert i1 == m + SEPARATOR + i2;
    }
  }

  /** Two indexes share a prefix exactly when they are the same, or one table's name overlaps the other index's name. */
  lemma {:induction false} SharePrefixIff(t1: bytes, i1: bytes, t2: bytes, i2: bytes)
    ensures IndexPrefix(t1, i1) == IndexPrefix(t2, i2)
       <==> (t1 == t2 && i1 == i2) || Overlaps(t1, i1, t2, i2) || Overlaps(t2, i2, t1, i1)
  {
    assert IndexPrefix(t1, i1)[|INDEX|..] == Name(t1, i1) && IndexPrefix(t2, i2)[|INDEX|..] == Name(t2, i2);
    if Name(t1, i1) == Name(t2, i2) {
      if |t1| < |t2| {
        SharedOverlaps(t1, i1, t2, i2);
      } else if |t2| < |t1| {
        SharedOverlaps(t2, i2, t1, i1);
      } else {
        var all := Name(t1, i1);
        assert all[..|t1|] == t1 && all[..|t2|] == t2;
        assert all[|t1| + 2..|all| - 2] == i1 && all[|t2| + 2..|all| - 2] == i2;
      }
    }
    if Overlaps(t1, i1, t2, i2) { OverlapShares(t1, i1, t2, i2); }
    if Overlaps(t2, i2, t1, i1) { OverlapShares(t2, i2, t1, i1); }
  }

  /** Index `b::c` of table `a`, and index `c` of table `a::b`. */
  lemma {:induction false} SeparatorInName()
    ensures IndexPrefix([97], [98, 58, 58, 99]) == IndexPrefix([97, 58, 58, 98], [99])
  {
    assert [97, 58, 58, 98] == [97] + SEPARATOR + [98] && [98, 58, 58, 99] == [98] + SEPARATOR + [99];
    SharePrefixIff([97], [98, 58, 58, 99], [97, 58, 58, 98], [99]);
  }

  // ------------------------------------------------------------- names without colons

  predicate Plain(name: bytes) {
    58 !in name
  }

  /** A name without colons ends at the first colon. */
  lemma {:induction false} NameEnds(a: bytes, x: bytes, b: bytes, y: bytes)
    requires Plain(a) && Plain(b) && a + SEPARATOR + x <= b + SEPARATOR + y
    ensures a == b && x <= y
  {
    var s, t := a + SEPARATOR + x, b + SEPARATOR + y;
    assert s[|a|] == t[|a|] == 58;
    assert |b| <= |a|;
    assert s[|b|] == t[|b|] == 58;
    assert s[..|a|] == a && t[..|b|] == b && s[..|a|] == t[..|a|];
    assert s[|a| + 2..] == x && t[|b| + 2..] == y;
  }

  /** Two plain names one after the other can be told apart from two others, whatever follows. */
  lemma {:induction false} PairEnds(t1: bytes, i1: bytes, x: bytes, t2: bytes, i2: bytes, y: bytes)
    requires Plain(t1) && Plain(i1) && Plain(t2) && Plain(i2) && Name(t1, i1) + x <= Name(t2, i2) + y
    ensures t1 == t2 && i1 == i2
  {
    assert Name(t1, i1) + x == t1 + SEPARATOR + (i1 + SEPARATOR + x);
    assert Name(t2, i2) + y == t2 + SEPARATOR + (i2 + SEPARATOR + y);
    NameEnds(t1, i1 + SEPARATOR + x, t2, i2 + SEPARATOR + y);
    NameEnds(i1, x, i2, y);
  }

  // --------------------------------------------------------- generations of a table

  // `generation_` in ASCII, after a NUL.
  const GENERATION: bytes := [0, 103, 101, 110, 101, 114, 97, 116, 105, 111, 110, 95]

  function HexDigit(d: nat): byte
    requires d < 16
  {
    if d < 10 then 48 + d else 87 + d
  }

  /** The last `n` hexadecimal digits, lower case, with leading zeros. */
  function Hex(g: nat, n: nat): bytes {
    if n == 0 then [] else Hex(g / 16, n - 1) + [HexDigit(g % 16)]
  }

  function Sixteens(n: nat): (p: nat)
    ensures p > 0
  {
    if n == 0 then 1 else 16 * Sixteens(n - 1)
  }

  lemma {:induction false} HexPlain(g: nat, n: nat)
    ensures |Hex(g, n)| == n && Plain(Hex(g, n))
  {
    if n > 0 { HexPlain(g / 16, n - 1); }
  }

  lemma {:induction false} HexTells(a: nat, b: nat, n: nat)
    requires a < Sixteens(n) && b < Sixteens(n) && Hex(a, n) == Hex(b, n)
    ensures a == b
  {
    if n > 0 {
      HexPlain(a / 16, n - 1);
      HexPlain(b / 16, n - 1);
      var s, t := Hex(a, n), Hex(b, n);
      assert s[..n - 1] == Hex(a / 16, n - 1) && t[..n - 1] == Hex(b / 16, n - 1);
      assert s[n - 1] == HexDigit(a % 16) && t[n - 1] == HexDigit(b % 16);
      HexTells(a / 16, b / 16, n - 1);
    }
  }

  lemma {:induction false} SixteenDigits()
    ensures Sixteens(16) == 0x1_0000_0000_0000_0000
  {
    assert Sixteens(4) == 0x1_0000;
    assert Sixteens(8) == 0x1_0000_0000;
    assert Sixteens(12) == 0x1_0000_0000_0000;
  }

  function Marker(generation: u64): bytes {
    GENERATION + Hex(generation, 16)
  }

  /** The name a table's keys are stored under: its own at first, after a rebuild one with the generation's number. */
  function StorageName(table: bytes, generation: u64): bytes {
    if generation == 0 then table else Marker(generation) + SEPARATOR + table
  }

  function PrefixOf(table: bytes, generation: u64, index: bytes): bytes {
    IndexPrefix(StorageName(table, generation), index)
  }

  /** No colon, and no NUL at the start: the latter cannot occur in SQL. */
  predicate Identifier(name: bytes) {
    Plain(name) && (name == [] || name[0] != 0)
  }

  /** The later names, spelled out. */
  lemma {:induction false} StorageSpelled(table: bytes, generation: u64)
    requires generation > 0
    ensures StorageName(table, generation) ==
            [0] + Spelled("generation_") + Hex(generation, 16) + Spelled("::") + table
  {
    assert GENERATION == [0] + Spelled("generation_") && SEPARATOR == Spelled("::");
  }

  /** Digit `i` from the right is that of the number in base 16. */
  lemma {:induction false} HexDigits(g: nat, n: nat, i: nat)
    requires i < n
    ensures |Hex(g, n)| == n && Hex(g, n)[n - 1 - i] == Spelled("0123456789abcdef")[g / Sixteens(i) % 16]
  {
    HexPlain(g, n);
    HexPlain(g / 16, n - 1);
    if i == 0 {
      DigitSpelled(g % 16);
    } else {
      HexDigits(g / 16, n - 1, i - 1);
      DivTwice(g, Sixteens(i - 1));
    }
  }

  lemma {:induction false} DigitSpelled(d: nat)
    requires d < 16
    ensures HexDigit(d) == Spelled("0123456789abcdef")[d]
  {
  }

  lemma {:induction false} DivTwice(g: nat, p: nat)
    requires p > 0
    ensures g / 16 / p == g / (16 * p)
  {
    var q := g / 16 / p;
    assert q * p <= g / 16 < (q + 1) * p;
    assert q * (16 * p) == 16 * (q * p) && (q + 1) * (16 * p) == 16 * ((q + 1) * p);
    DivUnique(g, 16 * p, q);
  }

  lemma {:induction false} MarkerTells(g1: u64, g2: u64)
    ensures Plain(Marker(g1)) && Marker(g1)[0] == 0
    ensures Marker(g1) == Marker(g2) ==> g1 == g2
  {
    HexPlain(g1, 16);
    HexPlain(g2, 16);
    assert Marker(g1)[|GENERATION|..] == Hex(g1, 16) && Marker(g2)[|GENERATION|..] == Hex(g2, 16);
    SixteenDigits();
    if Marker(g1) == Marker(g2) { HexTells(g1, g2, 16); }
  }

  /** What an index of a later generation writes: the marker, then both names. */
  lemma {:induction false} LaterName(table: bytes, g: u64, index: bytes, x: bytes)
    requires g > 0
    ensures Name(StorageName(table, g), index) + x == Marker(g) + SEPARATOR + (Name(table, index) + x)
  {
  }

  /** A first-generation name and a marker cannot be confused. */
  lemma {:induction false} MarkerApart(t: bytes, g: u64, x: bytes, y: bytes)
    requires Identifier(t)
    ensures !(t + SEPARATOR + x <= Marker(g) + SEPARATOR + y) && !(Marker(g) + SEPARATOR + y <= t + SEPARATOR + x)
  {
    MarkerTells(g, g);
    if t + SEPARATOR + x <= Marker(g) + SEPARATOR + y { NameEnds(t, x, Marker(g), y); }
    if Marker(g) + SEPARATOR + y <= t + SEPARATOR + x { NameEnds(Marker(g), y, t, x); }
  }

  lemma {:induction false} NamesApart(t1: bytes, g1: u64, i1: bytes, x: bytes, t2: bytes, g2: u64, i2: bytes, y: bytes)
    requires Identifier(t1) && Plain(i1) && Identifier(t2) && Plain(i2)
    requires Name(StorageName(t1, g1), i1) + x <= Name(StorageName(t2, g2), i2) + y
    ensures t1 == t2 && g1 == g2 && i1 == i2
  {
    var a, b := Name(t1, i1) + x, Name(t2, i2) + y;
    if g1 > 0 { LaterName(t1, g1, i1, x); }
    if g2 > 0 { LaterName(t2, g2, i2, y); }
    if (g1 == 0) != (g2 == 0) {
      assert a == t1 + SEPARATOR + (i1 + SEPARATOR + x) && b == t2 + SEPARATOR + (i2 + SEPARATOR + y);
      MarkerApart(t1, g2, i1 + SEPARATOR + x, b);
      MarkerApart(t2, g1, i2 + SEPARATOR + y, a);
    } else {
      if g1 > 0 {
        MarkerTells(g1, g2);
        MarkerTells(g2, g1);
        NameEnds(Marker(g1), a, Marker(g2), b);
      }
      PairEnds(t1, i1, x, t2, i2, y);
    }
  }

  /** Under the prefix of one index of one generation of a table lie no entries of another. */
  lemma {:induction false} GenerationsApart(t1: bytes, g1: u64, i1: bytes, t2: bytes, g2: u64, i2: bytes, rest: bytes)
    requires Identifier(t1) && Plain(i1) && Identifier(t2) && Plain(i2)
    requires PrefixOf(t1, g1, i1) <= PrefixOf(t2, g2, i2) + rest
    ensures t1 == t2 && g1 == g2 && i1 == i2
  {
    var n1, n2 := Name(StorageName(t1, g1), i1), Name(StorageName(t2, g2), i2);
    StripIndex(n1, n2, rest);
    NamesApart(t1, g1, i1, [], t2, g2, i2, rest);
  }

  lemma {:induction false} StripIndex(a: bytes, b: bytes, rest: bytes)
    requires INDEX + a <= INDEX + b + rest
    ensures a + [] <= b + rest
  {
    assert (INDEX + a)[|INDEX|..] == a && (INDEX + b + rest)[|INDEX|..] == b + rest;
  }

  /** Storage names of different tables or generations differ. */
  lemma {:induction false} StorageNamesDiffer(t1: bytes, g1: u64, t2: bytes, g2: u64)
    requires Identifier(t1) && Identifier(t2)
    ensures StorageName(t1, g1) == StorageName(t2, g2) <==> t1 == t2 && g1 == g2
  {
    if StorageName(t1, g1) == StorageName(t2, g2) {
      NamesApart(t1, g1, [], [], t2, g2, [], []);
    }
  }

  /** Entries for NULLs lie under no index's prefix. */
  lemma {:induction false} NullApart(t1: bytes, i1: bytes, t2: bytes, i2: bytes, rest: bytes)
    ensures !(IndexPrefix(t1, i1) <= NullPrefix(t2, i2) + rest)
  {
    assert IndexPrefix(t1, i1)[5] == 58 && (NullPrefix(t2, i2) + rest)[5] == 110;
  }

  /** Whose an index entry is, and from which tuple. */
  datatype Owner = Owner(table: bytes, generation: u64, index: bytes, tuple: seq<Value>, tail: bytes)

  /** The key is an entry of its owner, which has a name SQL allows. */
  ghost predicate OwnedBy(key: bytes, o: Owner, colls: seq<Collation>, fold: Fold) {
    && Identifier(o.table) && Plain(o.index) && SameKinds(o.tuple, o.tuple) && Key(o.tuple, colls, fold).Some?
    && key == PrefixOf(o.table, o.generation, o.index) + Key(o.tuple, colls, fold).value + ([0] + o.tail)
  }

  /** Every key under `index::` is the entry of some index of some generation, each index with its own collations. */
  ghost predicate AllOwned(db: seq<Entry>, owners: map<bytes, Owner>, colls: (bytes, bytes) -> seq<Collation>,
                           fold: Fold) {
    forall e | e in db && INDEX <= e.0 ::
      e.0 in owners && OwnedBy(e.0, owners[e.0], colls(owners[e.0].table, owners[e.0].index), fold)
  }

  lemma {:induction false} Regroup(a: bytes, b: bytes, c: bytes)
    ensures a + b + c == a + (b + c)
  {
  }

  lemma {:induction false} OwnEntry(key: bytes, o: Owner, colls: seq<Collation>, fold: Fold, table: bytes,
                                    generation: u64, index: bytes)
    requires OwnedBy(key, o, colls, fold) && Identifier(table) && Plain(index)
    requires PrefixOf(table, generation, index) <= key
    ensures o.table == table && o.generation == generation && o.index == index
  {
    var enc := Key(o.tuple, colls, fold).value;
    Regroup(PrefixOf(o.table, o.generation, o.index), enc, [0] + o.tail);
    GenerationsApart(table, generation, index, o.table, o.generation, o.index, enc + ([0] + o.tail));
  }

  lemma {:induction false} UnderIndex(table: bytes, generation: u64, index: bytes, key: bytes)
    requires PrefixOf(table, generation, index) <= key
    ensures INDEX <= key
  {
    assert INDEX <= PrefixOf(table, generation, index);
  }

  /** Then under an index's prefix lie exactly its own entries, as its lookups need. */
  lemma {:induction false} OwnKeyspace(db: seq<Entry>, owners: map<bytes, Owner>,
                                       colls: (bytes, bytes) -> seq<Collation>, fold: Fold,
                                       table: bytes, generation: u64, index: bytes)
    requires AllOwned(db, owners, colls, fold) && Identifier(table) && Plain(index)
    ensures Keyspace(db, PrefixOf(table, generation, index), colls(table, index), fold,
                     map k | k in owners :: Origin(owners[k].tuple, owners[k].tail))
  {
    var prefix := PrefixOf(table, generation, index);
    forall e | e in db && prefix <= e.0
      ensures e.0 in owners && owners[e.0].table == table && owners[e.0].generation == generation
              && owners[e.0].index == index
    {
      UnderIndex(table, generation, index, e.0);
      OwnEntry(e.0, owners[e.0], colls(owners[e.0].table, owners[e.0].index), fold, table, generation, index);
    }
  }
}
