/** Partitioned spill for GROUP BY (crates/elyra-engine/src/aggspill.rs). */
module AggSpill {
  import opened Wrappers
  import opened Bytes
  import opened Values
  import RowDec

  type Row = seq<Value>

  /** How rows are written to spill files and read back, and the largest record a reader takes. */
  datatype Codec = Codec(encode: Row -> bytes, decode: bytes -> Option<Row>, limit: nat)

  /** Records whose length fits the four bytes it is written in decode to what was encoded. */
  ghost predicate Faithful(c: Codec) {
    forall row | |c.encode(row)| < 0x1_0000_0000 :: c.decode(c.encode(row)) == Some(row)
  }

  /** What can be read back: a record whose length fits its four bytes and is within the limit. */
  predicate Framable(c: Codec, row: Row) {
    |c.encode(row)| <= c.limit && |c.encode(row)| < 0x1_0000_0000
  }

  ghost predicate Readable(c: Codec, rows: seq<Row>) {
    forall x | x in rows :: Framable(c, x)
  }

  /** Every record's length fits its four bytes. */
  ghost predicate Short(c: Codec, rows: seq<Row>) {
    forall x | x in rows :: |c.encode(x)| < 0x1_0000_0000
  }

  // -------------------------------------------------------------- the codec of rows

  /** A row read back from the layout rows are stored in. */
  function Decode(b: bytes): Option<Row> {
    if |b| < 8 then None
    else match RowDec.Columns(RowDec.ReadValue, b[8..], 0, RowDec.FromLittle(b[..8]), None, _ => true)
         case Ok(row) => row
         case Err(_) => None
  }

  /** Rows are spilled in the layout they are stored in. */
  function StoredCodec(limit: nat): Codec {
    Codec(RowDec.Encode, Decode, limit)
  }

  lemma {:induction false} ColumnsLong(row: Row)
    ensures |RowDec.EncodeColumns(row)| >= |row|
    ensures forall i | 0 <= i < |row| :: |RowDec.Payload(row[i])| <= |RowDec.EncodeColumns(row)|
  {
    if row != [] {
      ColumnsLong(row[1..]);
      forall i | 0 <= i < |row| ensures |RowDec.Payload(row[i])| <= |RowDec.EncodeColumns(row)| {
        if i > 0 { assert row[i] == row[1..][i - 1]; }
      }
    }
  }

  /** A row whose record is short has no over-long part, so its record reads back, under every limit. */
  lemma {:induction false} StoredFaithful(limit: nat)
    ensures Faithful(StoredCodec(limit))
  {
    forall row | |RowDec.Encode(row)| < 0x1_0000_0000 ensures Decode(RowDec.Encode(row)) == Some(row) {
      ColumnsLong(row);
      RowDec.EncodedColumns(row, None, _ => true);
      RowDec.MaskedAll(row);
    }
  }

  // ------------------------------------------------------------------------ routing

  function Exp2(n: nat): nat {
    if n == 0 then 1 else 2 * Exp2(n - 1)
  }

  /** Exclusive or of two numbers of `n` bits, bit by bit. */
  function Xor(a: nat, b: nat, n: nat): (r: nat)
    ensures r < Exp2(n)
  {
    if n == 0 then 0 else 2 * Xor(a / 2, b / 2, n - 1) + (if a % 2 == b % 2 then 0 else 1)
  }

  /** A 64-bit word and a byte: only the low byte changes. */
  function XorByte(h: u64, b: byte): u64 {
    assert Exp2(4) == 16 && Exp2(8) == 256;
    h - h % 256 + Xor(h % 256, b, 8)
  }

  /** One round of FNV-1a, wrapping at 64 bits. */
  function Round(h: u64, b: byte): u64 {
    (XorByte(h, b) * 0x0000_0100_0000_01b3) % 0x1_0000_0000_0000_0000
  }

  function Fnv(key: bytes): u64 {
    if key == [] then 0xcbf2_9ce4_8422_2325 else Round(Fnv(key[..|key| - 1]), key[|key| - 1])
  }

  function Partition(key: bytes, n: nat): (p: nat)
    requires n > 0
    ensures p < n
  {
    Fnv(key) % n
  }

  method PartitionOf(key: bytes, n: nat) returns (p: nat)
    requires n > 0
    ensures p == Partition(key, n)
  {
    var h: u64 := 0xcbf2_9ce4_8422_2325;
    for i := 0 to |key|
      invariant h == Fnv(key[..i])
    {
      assert key[..i + 1][..i] == key[..i];
      h := Round(h, key[i]);
    }
    assert key[..|key|] == key;
    return h % n;
  }

  /** 64-bit FNV-1a: what no bytes hash to, and a round with a zero byte, which multiplies by the FNV prime. */
  lemma {:induction false} HashRounds(key: bytes)
    ensures Fnv([]) == 14695981039346656037
    ensures Fnv(key + [0]) == Fnv(key) * (0x100_0000_0000 + 0x100 + 0xb3) % 0x1_0000_0000_0000_0000
  {
    assert (key + [0])[..|key|] == key;
    assert Exp2(4) == 16 && Exp2(8) == 256;
    XorNothing(Fnv(key) % 256, 8);
  }

  lemma {:induction false} XorNothing(a: nat, n: nat)
    requires a < Exp2(n)
    ensures Xor(a, 0, n) == a
  {
    if n > 0 { XorNothing(a / 2, n - 1); }
  }

  // ------------------------------------------------------------------- spill files

  function Frame(c: Codec, row: Row): bytes {
    RowDec.LittleEndian(|c.encode(row)|, 4) + c.encode(row)
  }

  function Frames(c: Codec, rows: seq<Row>): bytes {
    if rows == [] then [] else Frames(c, rows[..|rows| - 1]) + Frame(c, rows[|rows| - 1])
  }

  lemma {:induction false} FramesConcat(c: Codec, a: seq<Row>, b: seq<Row>)
    ensures Frames(c, a + b) == Frames(c, a) + Frames(c, b)
  {
    if b == [] {
      assert a + b == a;
    } else {
      FramesConcat(c, a, b[..|b| - 1]);
      assert (a + b)[..|a + b| - 1] == a + b[..|b| - 1];
    }
  }

  lemma {:induction false} FramesFirst(c: Codec, rows: seq<Row>)
    requires rows != []
    ensures Frames(c, rows) == Frame(c, rows[0]) + Frames(c, rows[1..])
  {
    assert rows == [rows[0]] + rows[1..];
    FramesConcat(c, [rows[0]], rows[1..]);
    assert [rows[0]][..0] == [];
  }

  lemma {:induction false} FramesLong(c: Codec, rows: seq<Row>)
    ensures rows == [] || |Frames(c, rows)| >= 4
  {
    if rows != [] {
      FramesFirst(c, rows);
    }
  }

  /** One record at cursor `p` of a file that goes on with the frames of `rows`. */
  lemma {:induction false} FrameReads(c: Codec, b: bytes, p: nat, rows: seq<Row>)
    requires rows != [] && |c.encode(rows[0])| < 0x1_0000_0000 && p <= |b| && b[p..] == Frames(c, rows)
    ensures
      var n := |c.encode(rows[0])|;
      && p + 4 + n <= |b| && RowDec.FromLittle(b[p..p + 4]) == n
      && b[p + 4..p + 4 + n] == c.encode(rows[0]) && b[p + 4 + n..] == Frames(c, rows[1..])
  {
    var e, rest := c.encode(rows[0]), Frames(c, rows[1..]);
    FramesFirst(c, rows);
    Widths();
    RowDec.LittleRoundTrip(|e|, 4);
    var s := b[p..];
    assert s == RowDec.LittleEndian(|e|, 4) + e + rest;
    assert s[..4] == RowDec.LittleEndian(|e|, 4) && s[..4] == b[p..p + 4];
    assert s[4..4 + |e|] == e && s[4..4 + |e|] == b[p + 4..p + 4 + |e|];
    assert s[4 + |e|..] == rest && s[4 + |e|..] == b[p + 4 + |e|..];
  }

  // ------------------------------------------------------------------- the partitions

  ghost function Buffered(mem: seq<seq<Row>>): nat {
    if mem == [] then 0 else Buffered(mem[..|mem| - 1]) + |mem[|mem| - 1]|
  }

  lemma {:induction false} BufferedUpdate(mem: seq<seq<Row>>, p: nat, rows: seq<Row>)
    requires p < |mem|
    ensures Buffered(mem[p := rows]) == Buffered(mem) - |mem[p]| + |rows|
  {
    var n := |mem| - 1;
    if p < n {
      BufferedUpdate(mem[..n], p, rows);
      assert mem[p := rows][..n] == mem[..n][p := rows];
    } else {
      assert mem[p := rows][..n] == mem[..n];
    }
  }

  lemma {:induction false} BufferedNone(mem: seq<seq<Row>>)
    requires forall p | 0 <= p < |mem| :: mem[p] == []
    ensures Buffered(mem) == 0
  {
    if mem != [] {
      BufferedNone(mem[..|mem| - 1]);
    }
  }

  /** A partition holds, in memory and in its file, exactly the rows routed to it and not yet drained. */
  ghost predicate Holds(c: Codec, mem: seq<Row>, file: Option<bytes>, spilled: seq<Row>, routed: multiset<Row>) {
    && (file.None? ==> spilled == [])
    && (file.Some? ==> file.value == Frames(c, spilled))
    && routed == multiset(mem) + multiset(spilled)
  }

  ghost predicate AllHold(c: Codec, mem: seq<seq<Row>>, files: seq<Option<bytes>>, spilled: seq<seq<Row>>,
                          routed: seq<multiset<Row>>) {
    |mem| == |files| == |spilled| == |routed| && forall n: nat :: FoldedHold(n, c, mem, files, spilled, routed)
  }

  /** Under a quantifier above: the verifier does not unfold it by itself in the methods. */
  ghost predicate FoldedHold(n: nat, c: Codec, mem: seq<seq<Row>>, files: seq<Option<bytes>>, spilled: seq<seq<Row>>,
                             routed: seq<multiset<Row>>)
    requires |mem| == |files| == |spilled| == |routed|
  {
    forall p | 0 <= p < |mem| :: Holds(c, mem[p], files[p], spilled[p], routed[p])
  }

  lemma {:induction false} OpenHold(c: Codec, mem: seq<seq<Row>>, files: seq<Option<bytes>>, spilled: seq<seq<Row>>,
                                    routed: seq<multiset<Row>>, p: nat)
    requires AllHold(c, mem, files, spilled, routed) && p < |mem|
    ensures Holds(c, mem[p], files[p], spilled[p], routed[p])
  {
    assert FoldedHold(0, c, mem, files, spilled, routed);
  }

  /** Partitions are independent. */
  lemma {:induction false} OneChanged(c: Codec, mem: seq<seq<Row>>, files: seq<Option<bytes>>, spilled: seq<seq<Row>>,
                                      routed: seq<multiset<Row>>,
                                      p: nat, m: seq<Row>, f: Option<bytes>, s: seq<Row>, r: multiset<Row>)
    requires AllHold(c, mem, files, spilled, routed) && p < |mem| && Holds(c, m, f, s, r)
    ensures AllHold(c, mem[p := m], files[p := f], spilled[p := s], routed[p := r])
  {
    assert FoldedHold(0, c, mem, files, spilled, routed);
    assert FoldedHold(0, c, mem[p := m], files[p := f], spilled[p := s], routed[p := r]);
  }

  lemma {:induction false} Pushed(c: Codec, m: seq<Row>, f: Option<bytes>, s: seq<Row>, r: multiset<Row>, row: Row)
    requires Holds(c, m, f, s, r)
    ensures Holds(c, m + [row], f, s, r + multiset{row})
  {
    assert multiset(m + [row]) == multiset(m) + multiset{row};
  }

  lemma {:induction false} Routed(c: Codec, mem: seq<seq<Row>>, files: seq<Option<bytes>>, spilled: seq<seq<Row>>,
                                  routed: seq<multiset<Row>>, p: nat, row: Row, more: seq<seq<Row>>,
                                  bags: seq<multiset<Row>>)
    requires AllHold(c, mem, files, spilled, routed) && p < |mem|
    requires more == mem[p := mem[p] + [row]] && bags == routed[p := routed[p] + multiset{row}]
    ensures AllHold(c, more, files, spilled, bags) && Buffered(more) == Buffered(mem) + 1
  {
    BufferedUpdate(mem, p, mem[p] + [row]);
    OpenHold(c, mem, files, spilled, routed, p);
    Pushed(c, mem[p], files[p], spilled[p], routed[p], row);
    OneChanged(c, mem, files, spilled, routed, p, mem[p] + [row], files[p], spilled[p], routed[p] + multiset{row});
    assert files[p := files[p]] == files && spilled[p := spilled[p]] == spilled;
  }

  lemma {:induction false} Spilled(c: Codec, m: seq<Row>, f: Option<bytes>, s: seq<Row>, r: multiset<Row>, file: bytes)
    requires Holds(c, m, f, s, r) && file == (if f.Some? then f.value else []) + Frames(c, m)
    ensures Holds(c, [], Some(file), s + m, r)
  {
    FramesConcat(c, s, m);
    assert multiset(s + m) == multiset(m) + multiset(s);
    assert f.None? ==> [] + Frames(c, m) == Frames(c, m);
  }

  class Partitions {
    var mem: seq<seq<Row>>
    var files: seq<Option<bytes>>
    var buffered: nat
    var budget: nat
    /** The rows in each file, and those routed to each partition. */
    ghost var spilled: seq<seq<Row>>
    ghost var routed: seq<multiset<Row>>

    ghost predicate Shape()
      reads this
    {
      |mem| == |files| == |spilled| == |routed| && budget >= 1
    }

    ghost predicate Valid(c: Codec)
      reads this
    {
      Shape() && buffered == Buffered(mem) && AllHold(c, mem, files, spilled, routed)
    }

    /** The first `p` partitions have been drained; the rest hold what `bags` says, with `spills` in their files. */
    ghost predicate Drained(c: Codec, p: nat, bags: seq<multiset<Row>>, spills: seq<seq<Row>>)
      reads this
    {
      && AllHold(c, mem, files, spilled, routed) && |bags| == |spills| == |routed|
      && forall q | p <= q < |routed| :: routed[q] == bags[q] && spilled[q] == spills[q]
    }

    constructor (c: Codec, n: nat, rows: nat)
      ensures Valid(c) && |mem| == n && buffered < budget && budget == (if rows < 1 then 1 else rows)
      ensures forall p | 0 <= p < n :: routed[p] == multiset{}
    {
      mem := seq(n, _ => []);
      files := seq(n, _ => None);
      buffered := 0;
      budget := if rows < 1 then 1 else rows;
      spilled := seq(n, _ => []);
      routed := seq(n, _ => multiset{});
      new;
      BufferedNone(mem);
      assert FoldedHold(0, c, mem, files, spilled, routed);
    }

    /** Routes a row; when the budget is reached everything is spilled. */
    method Route(c: Codec, p: nat, row: Row)
      requires Valid(c) && buffered < budget && p < |mem|
      modifies this
      ensures Valid(c) && buffered < budget && budget == old(budget) && |mem| == |old(mem)|
      ensures routed == old(routed)[p := old(routed)[p] + multiset{row}]
    {
      Keep(c, p, row);
      if buffered >= budget {
        SpillAll(c);
      }
    }

    method Keep(c: Codec, p: nat, row: Row)
      requires Valid(c) && p < |mem|
      modifies this`mem, this`routed, this`buffered
      ensures Valid(c) && buffered == old(buffered) + 1 && mem == old(mem)[p := old(mem)[p] + [row]]
      ensures routed == old(routed)[p := old(routed)[p] + multiset{row}]
    {
      var more := mem[p := mem[p] + [row]];
      ghost var bags := routed[p := routed[p] + multiset{row}];
      Routed(c, mem, files, spilled, routed, p, row, more, bags);
      mem, routed, buffered := more, bags, buffered + 1;
    }

    /** What partition `p` has in memory goes to the end of its file. */
    method SpillOne(c: Codec, p: nat)
      requires AllHold(c, mem, files, spilled, routed) && p < |mem|
      modifies this`mem, this`files, this`spilled
      ensures AllHold(c, mem, files, spilled, routed) && mem == old(mem)[p := []]
    {
      if mem[p] != [] {
        OpenHold(c, mem, files, spilled, routed, p);
        var file := AppendFrames(c, if files[p].Some? then files[p].value else [], mem[p]);
        Spilled(c, mem[p], files[p], spilled[p], routed[p], file);
        OneChanged(c, mem, files, spilled, routed, p, [], Some(file), spilled[p] + mem[p], routed[p]);
        assert routed[p := routed[p]] == routed;
        spilled := spilled[p := spilled[p] + mem[p]];
        files := files[p := Some(file)];
        mem := mem[p := []];
      }
    }

    method SpillAll(c: Codec)
      requires Valid(c)
      modifies this
      ensures Valid(c) && buffered == 0 && budget == old(budget) && |mem| == |old(mem)| && routed == old(routed)
      ensures forall p | 0 <= p < |mem| :: mem[p] == []
    {
      for p := 0 to |mem|
        invariant budget == old(budget) >= 1 && |mem| == |old(mem)| && routed == old(routed)
        invariant AllHold(c, mem, files, spilled, routed)
        invariant forall q | 0 <= q < p :: mem[q] == []
      {
        SpillOne(c, p);
      }
      buffered := 0;
      BufferedNone(mem);
    }

    /**
     * Every row of partition `p`, memory first, then its file; the partition is empty afterwards. It fails exactly
     * when a record in the file is over the limit (unless a length of more than four bytes was cut off).
     */
    method DrainEach(c: Codec, p: nat) returns (r: Result<seq<Row>, ()>)
      requires AllHold(c, mem, files, spilled, routed) && p < |mem| && Faithful(c)
      modifies this
      ensures |mem| == |old(mem)| && AllHold(c, mem, files, spilled, routed)
      ensures Short(c, old(spilled)[p]) ==> (r.Ok? <==> Readable(c, old(spilled)[p]))
      ensures Readable(c, old(spilled)[p]) ==> r.Ok? && multiset(r.value) == old(routed)[p]
      ensures routed == old(routed)[p := multiset{}] && spilled == old(spilled)[p := []]
    {
      OpenHold(c, mem, files, spilled, routed, p);
      var rows := mem[p];
      mem := mem[p := []];
      if files[p].Some? {
        var file := files[p].value;
        r := ReadFrames(c, file, rows, spilled[p]);
      } else {
        r := Ok(rows);
        assert rows + spilled[p] == rows;
      }
      assert multiset(rows + spilled[p]) == multiset(rows) + multiset(spilled[p]);
      assert files[p].None? ==> Readable(c, spilled[p]);
      OneChanged(c, old(mem), old(files), spilled, routed, p, [], None, [], multiset{});
      files := files[p := None];
      spilled := spilled[p := []];
      routed := routed[p := multiset{}];
    }
  }

  method AppendFrames(c: Codec, file: bytes, rows: seq<Row>) returns (w: bytes)
    ensures w == file + Frames(c, rows)
  {
    w := file;
    assert rows[..0] == [];
    for i := 0 to |rows|
      invariant w == file + Frames(c, rows[..i])
    {
      var e := c.encode(rows[i]);
      assert rows[..i + 1][..i] == rows[..i];
      w := w + RowDec.LittleEndian(|e|, 4);
      w := w + e;
    }
    assert rows[..|rows|] == rows;
  }

  /** Where reading stands: `i` records read, while none was found over the limit. */
  ghost predicate ReadSoFar(c: Codec, b: bytes, p: nat, rows: seq<Row>, out: seq<Row>, spilled: seq<Row>, i: nat) {
    && p <= |b| && i <= |spilled| && b[p..] == Frames(c, spilled[i..]) && out == rows + spilled[..i]
    && Readable(c, spilled[..i])
  }

  /** The same under a quantifier: the verifier does not unfold it by itself in the loop. */
  ghost predicate Reading(c: Codec, b: bytes, p: nat, rows: seq<Row>, out: seq<Row>, spilled: seq<Row>, i: nat) {
    forall n: nat :: FoldedRead(n, c, b, p, rows, out, spilled, i)
  }

  ghost predicate FoldedRead(n: nat, c: Codec, b: bytes, p: nat, rows: seq<Row>, out: seq<Row>, spilled: seq<Row>,
                             i: nat) {
    Faithful(c) && ReadSoFar(c, b, p, rows, out, spilled, i)
  }

  lemma {:induction false} ReadStart(c: Codec, b: bytes, rows: seq<Row>, spilled: seq<Row>)
    requires Faithful(c) && b == Frames(c, spilled)
    ensures Reading(c, b, 0, rows, rows, spilled, 0)
  {
    assert rows + spilled[..0] == rows && b[0..] == b && spilled[0..] == spilled;
  }

  /** The next record is over the limit, or has its length cut off. */
  ghost predicate Unreadable(c: Codec, spilled: seq<Row>, n: nat) {
    !Readable(c, spilled) && (n > c.limit || !Short(c, spilled))
  }

  lemma {:induction false} ReadOne(c: Codec, b: bytes, p: nat, rows: seq<Row>, out: seq<Row>, spilled: seq<Row>, i: nat)
    requires Reading(c, b, p, rows, out, spilled, i) && p + 4 <= |b|
    ensures
      var n := RowDec.FromLittle(b[p..p + 4]);
      || Unreadable(c, spilled, n)
      || (&& i < |spilled| && n <= c.limit && p + 4 + n <= |b| && c.decode(b[p + 4..p + 4 + n]) == Some(spilled[i])
          && Reading(c, b, p + 4 + n, rows, out + [spilled[i]], spilled, i + 1))
  {
    assert FoldedRead(0, c, b, p, rows, out, spilled, i);
    var left := spilled[i..];
    assert |b[p..]| >= 4 && left != [];
    assert spilled[i] in spilled && left[0] == spilled[i];
    if |c.encode(left[0])| < 0x1_0000_0000 {
      FrameReads(c, b, p, left);
    }
    assert left[1..] == spilled[i + 1..] && spilled[..i + 1] == spilled[..i] + [spilled[i]];
  }

  lemma {:induction false} ReadAll(c: Codec, b: bytes, p: nat, rows: seq<Row>, out: seq<Row>, spilled: seq<Row>, i: nat)
    requires Reading(c, b, p, rows, out, spilled, i) && p + 4 > |b|
    ensures out == rows + spilled && Readable(c, spilled)
  {
    assert FoldedRead(0, c, b, p, rows, out, spilled, i);
    FramesLong(c, spilled[i..]);
    assert spilled[..i] == spilled;
  }

  /** Reads records until the file ends; a length over the limit, a short or an undecodable record is an error. */
  method ReadFrames(c: Codec, b: bytes, rows: seq<Row>, ghost spilled: seq<Row>) returns (r: Result<seq<Row>, ()>)
    requires Faithful(c) && b == Frames(c, spilled)
    ensures Readable(c, spilled) ==> r == Ok(rows + spilled)
    ensures Short(c, spilled) && !Readable(c, spilled) ==> r.Err?
  {
    var out, p := rows, 0;
    ghost var i, lost := 0, false;
    ReadStart(c, b, rows, spilled);
    while p + 4 <= |b|
      invariant p <= |b| && (lost ==> !Short(c, spilled) && !Readable(c, spilled))
      invariant !lost ==> Reading(c, b, p, rows, out, spilled, i)
      decreases |b| - p
    {
      var n := RowDec.FromLittle(b[p..p + 4]);
      if !lost {
        ReadOne(c, b, p, rows, out, spilled, i);
        lost := Unreadable(c, spilled, n);
      }
      if n > c.limit { return Err(()); }
      if p + 4 + n > |b| { return Err(()); }
      var row := c.decode(b[p + 4..p + 4 + n]);
      if row.None? { return Err(()); }
      out := out + [row.value];
      p := p + 4 + n;
      i := i + 1;
    }
    if !lost { ReadAll(c, b, p, rows, out, spilled, i); }
    return Ok(out);
  }
}
