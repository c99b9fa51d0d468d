/** Decoding stored rows, whole, projected, or into numeric columns (crates/elyra-engine/src/rowdec.rs). */
module RowDec {
  import opened Wrappers
  import opened Bytes
  import opened Values

  type Row = seq<Value>

  datatype Error = End | Utf8 | Bincode

  // ------------------------------------------------------------- the stored layout

  /** `n` in `k` bytes, least significant first. */
  function LittleEndian(n: nat, k: nat): (s: bytes)
    ensures |s| == k
  {
    if k == 0 then [] else [n % 256] + LittleEndian(n / 256, k - 1)
  }

  function FromLittle(s: bytes): nat {
    if s == [] then 0 else s[0] + 256 * FromLittle(s[1..])
  }

  lemma {:induction false} LittleRoundTrip(n: nat, k: nat)
    requires n < Pow256(k)
    ensures FromLittle(LittleEndian(n, k)) == n
  {
    if k > 0 {
      LittleRoundTrip(n / 256, k - 1);
      assert LittleEndian(n, k)[1..] == LittleEndian(n / 256, k - 1);
    }
  }

  lemma {:induction false} LittleBound(s: bytes)
    ensures FromLittle(s) < Pow256(|s|)
  {
    if s != [] {
      LittleBound(s[1..]);
    }
  }

  /** Two's complement in `k` bytes. */
  function Signed(i: int, k: nat): bytes {
    LittleEndian(if i >= 0 then i else if i + Pow256(k) >= 0 then i + Pow256(k) else 0, k)
  }

  function FromSigned(s: bytes): int {
    var n := FromLittle(s);
    if 2 * n < Pow256(|s|) then n else n - Pow256(|s|)
  }

  lemma {:induction false} SignedRoundTrip(i: int, k: nat)
    requires 0 - Pow256(k) <= 2 * i < Pow256(k)
    ensures FromSigned(Signed(i, k)) == i
  {
    LittleRoundTrip(if i >= 0 then i else i + Pow256(k), k);
  }

  function EncodeFloats(v: seq<u32>): (s: bytes)
    ensures |s| == 4 * |v|
  {
    if v == [] then [] else LittleEndian(v[0], 4) + EncodeFloats(v[1..])
  }

  function DecodeFloats(s: bytes): seq<u32>
    requires |s| % 4 == 0
    decreases |s|
  {
    if s == [] then []
    else
      LittleBound(s[..4]);
      Widths();
      [FromLittle(s[..4])] + DecodeFloats(s[4..])
  }

  lemma {:induction false} FloatsRoundTrip(v: seq<u32>)
    ensures DecodeFloats(EncodeFloats(v)) == v
  {
    if v != [] {
      var s := EncodeFloats(v);
      assert s[..4] == LittleEndian(v[0], 4) && s[4..] == EncodeFloats(v[1..]);
      Widths();
      LittleRoundTrip(v[0], 4);
      FloatsRoundTrip(v[1..]);
    }
  }

  function TagOf(v: Value): nat {
    match v
    case Null => 0
    case Bool(_) => 1
    case Int(_) => 2
    case Float(_) => 3
    case Text(_) => 4
    case Blob(_) => 5
    case Vector(_) => 6
    case Date(_) => 7
    case DateTime(_) => 8
    case Decimal(_, _) => 9
    case Time(_) => 10
    case Json(_) => 11
    case UInt(_) => 12
  }

  function Sized(s: bytes): bytes {
    LittleEndian(|s|, 8) + s
  }

  function Payload(v: Value): bytes {
    match v
    case Null => []
    case Bool(b) => [if b then 1 else 0]
    case Int(i) => Signed(i, 8)
    case Float(bits) => LittleEndian(bits, 8)
    case Text(s) => Sized(s)
    case Blob(s) => Sized(s)
    case Vector(f) => LittleEndian(|f|, 8) + EncodeFloats(f)
    case Date(d) => Signed(d, 4)
    case DateTime(t) => Signed(t, 8)
    case Decimal(u, scale) => Signed(u, 16) + [scale]
    case Time(t) => Signed(t, 8)
    case Json(s) => Sized(s)
    case UInt(u) => LittleEndian(u, 8)
  }

  function EncodeValue(v: Value): bytes {
    LittleEndian(TagOf(v), 4) + Payload(v)
  }

  function EncodeColumns(row: Row): bytes {
    if row == [] then [] else EncodeValue(row[0]) + EncodeColumns(row[1..])
  }

  function Encode(row: Row): bytes {
    LittleEndian(|row|, 8) + EncodeColumns(row)
  }

  /** Lengths fit their 64-bit prefixes. */
  predicate Storable(v: Value) {
    match v
    case Text(s) => |s| < 0x1_0000_0000_0000_0000
    case Blob(s) => |s| < 0x1_0000_0000_0000_0000
    case Json(s) => |s| < 0x1_0000_0000_0000_0000
    case Vector(f) => |f| < 0x1_0000_0000_0000_0000
    case _ => true
  }

  predicate StorableRow(row: Row) {
    |row| < 0x1_0000_0000_0000_0000 && forall i | 0 <= i < |row| :: Storable(row[i])
  }

  // ---------------------------------------------------------------- reading a value

  /** A value and what is left; or a tag this decoder does not know; or too few bytes. */
  datatype Read = Got(value: Value, rest: bytes) | Unknown | Short

  function ReadSigned(t: bytes, k: nat, make: i64 -> Value): Read
    requires k == 4 || k == 8
  {
    if |t| < k then Short
    else
      LittleBound(t[..k]);
      Widths();
      Got(make(FromSigned(t[..k])), t[k..])
  }

  function ReadUnsigned(t: bytes, make: u64 -> Value): Read {
    if |t| < 8 then Short
    else
      LittleBound(t[..8]);
      Widths();
      Got(make(FromLittle(t[..8])), t[8..])
  }

  function ReadSized(t: bytes, make: bytes -> Value): Read {
    if |t| < 8 then Short
    else
      var len := FromLittle(t[..8]);
      if |t| - 8 < len then Short else Got(make(t[8..8 + len]), t[8 + len..])
  }

  function ReadVector(t: bytes): Read {
    if |t| < 8 then Short
    else
      var len := FromLittle(t[..8]);
      if |t| - 8 < len * 4 then Short else Got(Vector(DecodeFloats(t[8..8 + len * 4])), t[8 + len * 4..])
  }

  function ReadDate(t: bytes): Read {
    if |t| < 4 then Short
    else
      LittleBound(t[..4]);
      Widths();
      Got(Date(FromSigned(t[..4])), t[4..])
  }

  function ReadDecimal(t: bytes): Read {
    if |t| < 17 then Short
    else
      LittleBound(t[..16]);
      Widths();
      Got(Decimal(FromSigned(t[..16]), t[16]), t[17..])
  }

  function MakeInt(i: i64): Value { Int(i) }
  function MakeDateTime(i: i64): Value { DateTime(i) }
  function MakeTime(i: i64): Value { Time(i) }
  function MakeFloat(u: u64): Value { Float(u) }
  function MakeUInt(u: u64): Value { UInt(u) }
  function MakeText(s: bytes): Value { Text(s) }
  function MakeBlob(s: bytes): Value { Blob(s) }
  function MakeJson(s: bytes): Value { Json(s) }

  function ReadPayload(tag: nat, t: bytes): Read {
    match tag
    case 0 => Got(Null, t)
    case 1 => if |t| < 1 then Short else Got(Bool(t[0] != 0), t[1..])
    case 2 => ReadSigned(t, 8, MakeInt)
    case 3 => ReadUnsigned(t, MakeFloat)
    case 4 => ReadSized(t, MakeText)
    case 5 => ReadSized(t, MakeBlob)
    case 6 => ReadVector(t)
    case 7 => ReadDate(t)
    case 8 => ReadSigned(t, 8, MakeDateTime)
    case 9 => ReadDecimal(t)
    case 10 => ReadSigned(t, 8, MakeTime)
    case 11 => ReadSized(t, MakeJson)
    case 12 => ReadUnsigned(t, MakeUInt)
    case _ => Unknown
  }

  function ReadValue(s: bytes): Read {
    if |s| < 4 then Short else ReadPayload(FromLittle(s[..4]), s[4..])
  }

  lemma {:induction false} Split(a: bytes, b: bytes)
    ensures (a + b)[..|a|] == a && (a + b)[|a|..] == b
  {
  }

  lemma {:induction false} SizedReads(s: bytes, rest: bytes, make: bytes -> Value)
    requires |s| < 0x1_0000_0000_0000_0000
    ensures ReadSized(Sized(s) + rest, make) == Got(make(s), rest)
  {
    var t := Sized(s) + rest;
    Widths();
    LittleRoundTrip(|s|, 8);
    assert t[..8] == LittleEndian(|s|, 8) && t[8..8 + |s|] == s && t[8 + |s|..] == rest;
  }

  lemma {:induction false} SignedReads(i: i64, rest: bytes, make: i64 -> Value)
    ensures ReadSigned(Signed(i, 8) + rest, 8, make) == Got(make(i), rest)
  {
    Widths();
    SignedRoundTrip(i, 8);
    Split(Signed(i, 8), rest);
  }

  lemma {:induction false} UnsignedReads(u: u64, rest: bytes, make: u64 -> Value)
    ensures ReadUnsigned(LittleEndian(u, 8) + rest, make) == Got(make(u), rest)
  {
    Widths();
    LittleRoundTrip(u, 8);
    Split(LittleEndian(u, 8), rest);
  }

  lemma {:induction false} VectorReads(f: seq<u32>, rest: bytes)
    requires |f| < 0x1_0000_0000_0000_0000
    ensures ReadVector(LittleEndian(|f|, 8) + EncodeFloats(f) + rest) == Got(Vector(f), rest)
  {
    var t := LittleEndian(|f|, 8) + EncodeFloats(f) + rest;
    Widths();
    LittleRoundTrip(|f|, 8);
    FloatsRoundTrip(f);
    assert t[..8] == LittleEndian(|f|, 8) && t[8..8 + |f| * 4] == EncodeFloats(f) && t[8 + |f| * 4..] == rest;
  }

  lemma {:induction false} DateReads(d: i32, rest: bytes)
    ensures ReadDate(Signed(d, 4) + rest) == Got(Date(d), rest)
  {
    Widths();
    SignedRoundTrip(d, 4);
    Split(Signed(d, 4), rest);
  }

  lemma {:induction false} DecimalReads(u: i128, scale: byte, rest: bytes)
    ensures ReadDecimal(Signed(u, 16) + [scale] + rest) == Got(Decimal(u, scale), rest)
  {
    var t := Signed(u, 16) + [scale] + rest;
    Widths();
    SignedRoundTrip(u, 16);
    assert t[..16] == Signed(u, 16) && t[16] == scale && t[17..] == rest;
  }

  lemma {:induction false} PayloadReadsSized(v: Value, rest: bytes)
    requires Storable(v) && (v.Text? || v.Blob? || v.Json? || v.Vector?)
    ensures ReadPayload(TagOf(v), Payload(v) + rest) == Got(v, rest)
  {
    match v
    case Text(s) => SizedReads(s, rest, MakeText);
    case Blob(s) => SizedReads(s, rest, MakeBlob);
    case Json(s) => SizedReads(s, rest, MakeJson);
    case Vector(f) => VectorReads(f, rest);
  }

  lemma {:induction false} PayloadReadsWord(v: Value, rest: bytes)
    requires v.Int? || v.DateTime? || v.Time? || v.Float? || v.UInt?
    ensures ReadPayload(TagOf(v), Payload(v) + rest) == Got(v, rest)
  {
    match v
    case Int(i) => SignedReads(i, rest, MakeInt);
    case DateTime(i) => SignedReads(i, rest, MakeDateTime);
    case Time(i) => SignedReads(i, rest, MakeTime);
    case Float(u) => UnsignedReads(u, rest, MakeFloat);
    case UInt(u) => UnsignedReads(u, rest, MakeUInt);
  }

  lemma {:induction false} PayloadReads(v: Value, rest: bytes)
    requires Storable(v)
    ensures ReadPayload(TagOf(v), Payload(v) + rest) == Got(v, rest)
  {
    match v
    case Null => assert [] + rest == rest;
    case Bool(b) => Split([if b then 1 else 0], rest);
    case Date(d) => DateReads(d, rest);
    case Decimal(u, scale) => DecimalReads(u, scale, rest);
    case Text(_) => PayloadReadsSized(v, rest);
    case Blob(_) => PayloadReadsSized(v, rest);
    case Json(_) => PayloadReadsSized(v, rest);
    case Vector(_) => PayloadReadsSized(v, rest);
    case _ => PayloadReadsWord(v, rest);
  }

  /** Reading an encoded value gives it back and leaves what follows. */
  lemma {:induction false} ValueReads(v: Value, rest: bytes)
    requires Storable(v)
    ensures ReadValue(EncodeValue(v) + rest) == Got(v, rest)
  {
    var s := EncodeValue(v) + rest;
    Widths();
    LittleRoundTrip(TagOf(v), 4);
    assert s[..4] == LittleEndian(TagOf(v), 4) && s[4..] == Payload(v) + rest;
    PayloadReads(v, rest);
  }

  // ------------------------------------------------------------- rows and projections

  /** Columns not marked default to wanted. */
  predicate Wanted(needed: Option<seq<bool>>, i: nat) {
    needed.None? || i >= |needed.value| || needed.value[i]
  }

  predicate BadText(v: Value, utf8: bytes -> bool) {
    (v.Text? || v.Json?) && !utf8(v.s)
  }

  /** How one value is read; `ReadValue` below. */
  type Reader = bytes -> Read

  /** What is left after a value is the end of what there was. */
  ghost predicate Advances(read: Reader) {
    forall s :: read(s).Got? ==> |read(s).rest| <= |s| && s[|s| - |read(s).rest|..] == read(s).rest
  }

  /** The columns from the `i`th on, read from `s`; `None` if a tag is unknown. */
  function Columns(read: Reader, s: bytes, i: nat, count: nat, needed: Option<seq<bool>>,
                   utf8: bytes -> bool): Result<Option<Row>, Error>
    requires i <= count
    decreases count - i
  {
    if i == count then Ok(Some([]))
    else match read(s)
         case Short => Err(End)
         case Unknown => Ok(None)
         case Got(v, rest) =>
           if Wanted(needed, i) && BadText(v, utf8) then Err(Utf8)
           else
             var more :- Columns(read, rest, i + 1, count, needed, utf8);
             if more.None? then Ok(None)
             else Ok(Some([if Wanted(needed, i) then v else Null] + more.value))
  }

  /** The row with the columns not wanted replaced by NULL. */
  function Masked(row: Row, needed: Option<seq<bool>>, i: nat): (r: Row)
    requires i <= |row|
    ensures |r| == |row| - i
    ensures forall k | i <= k < |row| :: r[k - i] == if Wanted(needed, k) then row[k] else Null
    decreases |row| - i
  {
    if i == |row| then [] else [if Wanted(needed, i) then row[i] else Null] + Masked(row, needed, i + 1)
  }

  predicate GoodTexts(row: Row, utf8: bytes -> bool) {
    forall i | 0 <= i < |row| :: !BadText(row[i], utf8)
  }

  lemma {:induction false} EncodedReads(row: Row, i: nat)
    requires StorableRow(row) && i < |row|
    ensures ReadValue(EncodeColumns(row[i..])) == Got(row[i], EncodeColumns(row[i + 1..]))
  {
    assert row[i..][1..] == row[i + 1..];
    ValueReads(row[i], EncodeColumns(row[i + 1..]));
  }

  lemma {:induction false} ColumnsRead(read: Reader, row: Row, i: nat, needed: Option<seq<bool>>, utf8: bytes -> bool)
    requires read == ReadValue && StorableRow(row) && GoodTexts(row, utf8) && i <= |row|
    ensures Columns(read, EncodeColumns(row[i..]), i, |row|, needed, utf8) == Ok(Some(Masked(row, needed, i)))
    decreases |row| - i
  {
    if i < |row| {
      EncodedReads(row, i);
      ColumnsRead(read, row, i + 1, needed, utf8);
    }
  }

  /** A projected row has NULL for every column marked as not needed; columns without a mark are kept. */
  lemma {:induction false} MaskedMeans(row: Row, needed: seq<bool>)
    ensures |Masked(row, Some(needed), 0)| == |row|
    ensures forall k | 0 <= k < |row| ::
              Masked(row, Some(needed), 0)[k] == if k < |needed| && !needed[k] then Null else row[k]
  {
    forall k | 0 <= k < |row|
      ensures Masked(row, Some(needed), 0)[k] == if k < |needed| && !needed[k] then Null else row[k]
    {
      assert Masked(row, Some(needed), 0)[k - 0] == if Wanted(Some(needed), k) then row[k] else Null;
    }
  }

  /** A needed text that is not UTF-8 is an error; one that is not needed is never looked at. */
  lemma {:induction false} BadTextShows(read: Reader, row: Row, i: nat, needed: seq<bool>, utf8: bytes -> bool, k: nat)
    requires read == ReadValue && StorableRow(row) && i <= k < |row| && !(k < |needed| && !needed[k])
    requires (row[k].Text? || row[k].Json?) && !utf8(row[k].s)
    requires forall j | i <= j < k && (row[j].Text? || row[j].Json?) ::
               utf8(row[j].s) || (j < |needed| && !needed[j])
    ensures Columns(read, EncodeColumns(row[i..]), i, |row|, Some(needed), utf8) == Err(Utf8)
    decreases k - i
  {
    EncodedReads(row, i);
    if i < k { BadTextShows(read, row, i + 1, needed, utf8, k); }
  }

  lemma {:induction false} MaskedAll(row: Row)
    ensures Masked(row, None, 0) == row
  {
  }

  lemma {:induction false} CountReads(row: Row)
    requires |row| < 0x1_0000_0000_0000_0000
    ensures |Encode(row)| >= 8 && FromLittle(Encode(row)[..8]) == |row| && Encode(row)[8..] == EncodeColumns(row)
  {
    Widths();
    LittleRoundTrip(|row|, 8);
    Split(LittleEndian(|row|, 8), EncodeColumns(row));
  }

  function WithBincode(r: Option<Row>): Result<Row, Error> {
    if r.None? then Err(Bincode) else Ok(r.value)
  }

  /** The columns collected so far, and the outcome of the rest. */
  ghost function Prepended(front: Row, r: Result<Option<Row>, Error>): Result<Option<Row>, Error> {
    if r.Err? || r.value.None? then r else Ok(Some(front + r.value.value))
  }

  lemma {:induction false} ColumnsStep(read: Reader, b: bytes, q: nat, i: nat, count: nat, needed: Option<seq<bool>>,
                                       utf8: bytes -> bool, front: Row)
    requires Advances(read) && q <= |b| && i < count && read(b[q..]).Got?
    requires !(Wanted(needed, i) && BadText(read(b[q..]).value, utf8))
    ensures
      var (v, rest) := (read(b[q..]).value, read(b[q..]).rest);
      && |rest| <= |b| && b[|b| - |rest|..] == rest
      && Prepended(front, Columns(read, b[q..], i, count, needed, utf8)) ==
         Prepended(front + [if Wanted(needed, i) then v else Null], Columns(read, rest, i + 1, count, needed, utf8))
  {
    var (v, rest) := (read(b[q..]).value, read(b[q..]).rest);
    var s := b[q..];
    assert s[|s| - |rest|..] == b[|b| - |rest|..];
    var more := Columns(read, rest, i + 1, count, needed, utf8);
    if more.Ok? && more.value.Some? {
      var w := if Wanted(needed, i) then v else Null;
      assert front + ([w] + more.value.value) == (front + [w]) + more.value.value;
    }
  }

  /** Columns from cursor `p` on, appended one by one to a buffer. */
  method DecodeCols(read: Reader, b: bytes, p: nat, count: nat, needed: Option<seq<bool>>, utf8: bytes -> bool)
    returns (r: Result<bool, Error>, out: Row)
    requires Advances(read) && p <= |b|
    ensures match Columns(read, b[p..], 0, count, needed, utf8)
            case Err(e) => r == Err(e)
            case Ok(None) => r == Ok(false)
            case Ok(Some(row)) => r == Ok(true) && out == row
  {
    out := [];
    var q: nat := p;
    ghost var goal := Columns(read, b[p..], 0, count, needed, utf8);
    assert goal.Ok? && goal.value.Some? ==> [] + goal.value.value == goal.value.value;
    for i := 0 to count
      invariant q <= |b|
      invariant goal == Prepended(out, Columns(read, b[q..], i, count, needed, utf8))
    {
      match read(b[q..]) {
        case Short => return Err(End), out;
        case Unknown => return Ok(false), out;
        case Got(v, rest) =>
          if Wanted(needed, i) && BadText(v, utf8) { return Err(Utf8), out; }
          ColumnsStep(read, b, q, i, count, needed, utf8, out);
          out := out + [if Wanted(needed, i) then v else Null];
          q := |b| - |rest|;
      }
    }
    assert out + [] == out;
    r := Ok(true);
  }

  lemma {:induction false} ReadAdvances()
    ensures Advances(ReadValue)
  {
    forall s: bytes | ReadValue(s).Got?
      ensures |ReadValue(s).rest| <= |s| && s[|s| - |ReadValue(s).rest|..] == ReadValue(s).rest
    {
      PayloadAdvances(FromLittle(s[..4]), s[4..]);
      var n := |ReadValue(s).rest|;
      assert s[4..][|s| - 4 - n..] == s[|s| - n..];
    }
  }

  lemma {:induction false} SizedAdvances(t: bytes, make: bytes -> Value)
    requires ReadSized(t, make).Got?
    ensures var rest := ReadSized(t, make).rest; |rest| <= |t| && t[|t| - |rest|..] == rest
  {
  }

  lemma {:induction false} PayloadAdvances(tag: nat, t: bytes)
    requires ReadPayload(tag, t).Got?
    ensures var rest := ReadPayload(tag, t).rest; |rest| <= |t| && t[|t| - |rest|..] == rest
  {
    match tag
    case 4 => SizedAdvances(t, MakeText);
    case 5 => SizedAdvances(t, MakeBlob);
    case 11 => SizedAdvances(t, MakeJson);
    case _ =>
  }

  method DecodeRow(b: bytes, utf8: bytes -> bool, bincode: bytes -> Option<Row>) returns (r: Result<Row, Error>)
    ensures forall row | b == Encode(row) && StorableRow(row) && GoodTexts(row, utf8) :: r == Ok(row)
    ensures |b| < 8 ==> r == WithBincode(bincode(b))
    ensures |b| >= 8 ==> r == match Columns(ReadValue, b[8..], 0, FromLittle(b[..8]), None, utf8)
                              case Ok(Some(row)) => Ok(row)
                              case _ => WithBincode(bincode(b))
  {
    forall row | b == Encode(row) && StorableRow(row) && GoodTexts(row, utf8)
      ensures |b| >= 8 && Columns(ReadValue, b[8..], 0, FromLittle(b[..8]), None, utf8) == Ok(Some(row))
    {
      EncodedColumns(row, None, utf8);
      MaskedAll(row);
    }
    if |b| < 8 { return WithBincode(bincode(b)); }
    ReadAdvances();
    var ok, out := DecodeCols(ReadValue, b, 8, FromLittle(b[..8]), None, utf8);
    if ok == Ok(true) { return Ok(out); }
    return WithBincode(bincode(b));
  }

  lemma {:induction false} EncodedColumns(row: Row, needed: Option<seq<bool>>, utf8: bytes -> bool)
    requires StorableRow(row) && GoodTexts(row, utf8)
    ensures |Encode(row)| >= 8 && FromLittle(Encode(row)[..8]) == |row|
    ensures Columns(ReadValue, Encode(row)[8..], 0, |row|, needed, utf8) == Ok(Some(Masked(row, needed, 0)))
  {
    CountReads(row);
    assert row[0..] == row;
    ColumnsRead(ReadValue, row, 0, needed, utf8);
  }

  /** Decodes into `out`, which the caller keeps from row to row. */
  method DecodeProjectedInto(b: bytes, ncols: nat, needed: seq<bool>, utf8: bytes -> bool,
                             bincode: bytes -> Option<Row>)
    returns (r: Result<Row, Error>)
    ensures forall row | b == Encode(row) && StorableRow(row) && GoodTexts(row, utf8) && |row| == ncols ::
              r == Ok(Masked(row, Some(needed), 0))
    ensures |b| < 8 ==> r == Err(End)
    ensures |b| >= 8 && FromLittle(b[..8]) != ncols ==> r == WithBincode(bincode(b))
    ensures |b| >= 8 && FromLittle(b[..8]) == ncols ==>
              r == match Columns(ReadValue, b[8..], 0, ncols, Some(needed), utf8)
                   case Ok(Some(row)) => Ok(row)
                   case Ok(None) => WithBincode(bincode(b))
                   case Err(e) => Err(e)
  {
    forall row | b == Encode(row) && StorableRow(row) && GoodTexts(row, utf8) && |row| == ncols
      ensures |b| >= 8 && FromLittle(b[..8]) == ncols
              && Columns(ReadValue, b[8..], 0, ncols, Some(needed), utf8) == Ok(Some(Masked(row, Some(needed), 0)))
    {
      EncodedColumns(row, Some(needed), utf8);
    }
    if |b| < 8 { return Err(End); }
    var count := FromLittle(b[..8]);
    if count != ncols { return WithBincode(bincode(b)); }
    ReadAdvances();
    var ok, out := DecodeCols(ReadValue, b, 8, count, Some(needed), utf8);
    if ok.Err? { return Err(ok.error); }
    if !ok.value { return WithBincode(bincode(b)); }
    return Ok(out);
  }

  // ------------------------------------------------------------- numeric columns

  /** One column's values: an integer column keeps integers, a float column the bits of floats. */
  datatype NumBuf = Ints(ints: seq<i64>) | Floats(floats: seq<u64>)

  /** Widening an integer to a float. */
  type Widen = int -> u64

  function Len(b: NumBuf): nat {
    match b case Ints(v) => |v| case Floats(v) => |v|
  }

  function Truncate(b: NumBuf, n: nat): NumBuf {
    match b
    case Ints(v) => if n <= |v| then Ints(v[..n]) else b
    case Floats(v) => if n <= |v| then Floats(v[..n]) else b
  }

  function PushInt(b: NumBuf, n: i64, widen: Widen): NumBuf {
    match b case Ints(v) => Ints(v + [n]) case Floats(v) => Floats(v + [widen(n)])
  }

  /** `None`: the value cannot be kept exactly. */
  function PushUint(b: NumBuf, n: u64, widen: Widen): Option<NumBuf> {
    match b
    case Ints(v) => if n < 0x8000_0000_0000_0000 then Some(Ints(v + [n])) else None
    case Floats(v) => Some(Floats(v + [widen(n)]))
  }

  function PushFloat(b: NumBuf, bits: u64): Option<NumBuf> {
    match b case Ints(v) => None case Floats(v) => Some(Floats(v + [bits]))
  }

  predicate IsNumeric(v: Value) {
    v.Int? || v.Bool? || v.UInt? || v.Float?
  }

  function PushNumber(b: NumBuf, v: Value, widen: Widen): Option<NumBuf>
    requires IsNumeric(v)
  {
    match v
    case Int(n) => Some(PushInt(b, n, widen))
    case Bool(x) => Some(PushInt(b, if x then 1 else 0, widen))
    case UInt(n) => PushUint(b, n, widen)
    case Float(bits) => PushFloat(b, bits)
  }

  /** NULL and non-numeric values are not pushed. */
  function PushValue(b: NumBuf, v: Option<Value>, widen: Widen): Option<NumBuf> {
    if v.Some? && IsNumeric(v.value) then PushNumber(b, v.value, widen) else Some(b)
  }

  /** The buffer a column goes to, or -1. */
  function SlotOf(slots: seq<int>, i: nat): int {
    if i < |slots| then slots[i] else -1
  }

  predicate SlotsFit(slots: seq<int>, n: nat) {
    forall i | 0 <= i < |slots| :: slots[i] < n
  }

  predicate SlotsDistinct(slots: seq<int>) {
    forall i, j | 0 <= i < j < |slots| :: slots[i] >= 0 ==> slots[i] != slots[j]
  }

  type Outcome = (Result<bool, Error>, seq<NumBuf>)

  /** Columns from `col` on of a decoded row, pushed one by one. */
  function PushRow(row: Row, slots: seq<int>, col: nat, bufs: seq<NumBuf>, widen: Widen): Outcome
    requires SlotsFit(slots, |bufs|)
    decreases |slots| - col
  {
    if col >= |slots| then (Ok(true), bufs)
    else if slots[col] < 0 then PushRow(row, slots, col + 1, bufs, widen)
    else match PushValue(bufs[slots[col]], if col < |row| then Some(row[col]) else None, widen)
         case None => (Ok(false), bufs)
         case Some(b) => PushRow(row, slots, col + 1, bufs[slots[col] := b], widen)
  }

  function DecodedPush(row: Option<Row>, slots: seq<int>, bufs: seq<NumBuf>, widen: Widen): Outcome
    requires SlotsFit(slots, |bufs|)
  {
    if row.None? then (Err(Bincode), bufs) else PushRow(row.value, slots, 0, bufs, widen)
  }

  /** The walk over the encoded columns; an unknown tag gives what the fallback gives. */
  function Walk(read: Reader, s: bytes, i: nat, count: nat, slots: seq<int>, bufs: seq<NumBuf>, fallback: Outcome,
                widen: Widen): Outcome
    requires i <= count && SlotsFit(slots, |bufs|)
    decreases count - i
  {
    if i == count then (Ok(true), bufs)
    else match read(s)
         case Short => (Err(End), bufs)
         case Unknown => fallback
         case Got(v, rest) =>
           var slot := SlotOf(slots, i);
           if slot < 0 then Walk(read, rest, i + 1, count, slots, bufs, fallback, widen)
           else match PushValue(bufs[slot], Some(v), widen)
                case None => (Ok(false), bufs)
                case Some(b) => Walk(read, rest, i + 1, count, slots, bufs[slot := b], fallback, widen)
  }

  function Extracted(read: Reader, b: bytes, ncols: nat, slots: seq<int>, bufs: seq<NumBuf>, decoded: Option<Row>,
                     widen: Widen): Outcome
    requires SlotsFit(slots, |bufs|)
  {
    if |b| < 8 then (Err(End), bufs)
    else
      var fallback := DecodedPush(decoded, slots, bufs, widen);
      if FromLittle(b[..8]) != ncols then fallback
      else Walk(read, b[8..], 0, ncols, slots, bufs, fallback, widen)
  }

  lemma {:induction false} PushPast(row: Row, slots: seq<int>, col: nat, bufs: seq<NumBuf>, widen: Widen)
    requires SlotsFit(slots, |bufs|) && col >= |row|
    ensures PushRow(row, slots, col, bufs, widen) == (Ok(true), bufs)
    decreases |slots| - col
  {
    if col < |slots| {
      if slots[col] >= 0 { assert bufs[slots[col] := bufs[slots[col]]] == bufs; }
      PushPast(row, slots, col + 1, bufs, widen);
    }
  }

  lemma {:induction false} WalkPast(read: Reader, row: Row, i: nat, slots: seq<int>, bufs: seq<NumBuf>,
                                    fallback: Outcome, widen: Widen)
    requires read == ReadValue && StorableRow(row) && SlotsFit(slots, |bufs|) && |slots| <= i <= |row|
    ensures Walk(read, EncodeColumns(row[i..]), i, |row|, slots, bufs, fallback, widen) == (Ok(true), bufs)
    decreases |row| - i
  {
    if i < |row| {
      EncodedReads(row, i);
      WalkPast(read, row, i + 1, slots, bufs, fallback, widen);
    }
  }

  /** On encoded columns the walk pushes what pushing the decoded row pushes. */
  lemma {:induction false} WalkIsPush(read: Reader, row: Row, i: nat, slots: seq<int>, bufs: seq<NumBuf>,
                                      fallback: Outcome, widen: Widen)
    requires read == ReadValue && StorableRow(row) && SlotsFit(slots, |bufs|) && i <= |row|
    ensures Walk(read, EncodeColumns(row[i..]), i, |row|, slots, bufs, fallback, widen) ==
            PushRow(row, slots, i, bufs, widen)
    decreases |row| - i
  {
    if i == |row| {
      PushPast(row, slots, i, bufs, widen);
    } else if i >= |slots| {
      WalkPast(read, row, i, slots, bufs, fallback, widen);
    } else {
      EncodedReads(row, i);
      if slots[i] < 0 {
        WalkIsPush(read, row, i + 1, slots, bufs, fallback, widen);
      } else {
        var p := PushValue(bufs[slots[i]], Some(row[i]), widen);
        if p.Some? { WalkIsPush(read, row, i + 1, slots, bufs[slots[i] := p.value], fallback, widen); }
      }
    }
  }

  /** On every encoded row the walk gives the buffers and the answer of the whole-row fallback. */
  lemma {:induction false} ExtractsRow(row: Row, slots: seq<int>, bufs: seq<NumBuf>, decoded: Option<Row>, widen: Widen)
    requires StorableRow(row) && SlotsFit(slots, |bufs|)
    ensures Extracted(ReadValue, Encode(row), |row|, slots, bufs, decoded, widen) == PushRow(row, slots, 0, bufs, widen)
  {
    CountReads(row);
    assert row[0..] == row;
    WalkIsPush(ReadValue, row, 0, slots, bufs, DecodedPush(decoded, slots, bufs, widen), widen);
  }

  // ---------------------------------------------------------------- what a row adds

  /** The buffer has gained the number, as it is or widened. */
  ghost predicate Gained(b: NumBuf, n: int, c: NumBuf, widen: Widen) {
    match b
    case Ints(v) => c.Ints? && |c.ints| == |v| + 1 && c.ints[..|v|] == v && c.ints[|v|] == n
    case Floats(v) => c.Floats? && |c.floats| == |v| + 1 && c.floats[..|v|] == v && c.floats[|v|] == widen(n)
  }

  /** What a column's value adds to its buffer: its number, one or zero for true or false, and nothing otherwise. */
  ghost predicate Grown(b: NumBuf, v: Value, c: NumBuf, widen: Widen) {
    match v
    case Int(n) => Gained(b, n, c, widen)
    case UInt(n) => Gained(b, n, c, widen)
    case Bool(x) => Gained(b, if x then 1 else 0, c, widen)
    case Float(bits) =>
      b.Floats? && c.Floats? && |c.floats| == |b.floats| + 1 && c.floats[..|b.floats|] == b.floats
      && c.floats[|b.floats|] == bits
    case _ => c == b
  }

  /** An integer column takes no float, and no unsigned number from 2^63 on. */
  ghost predicate Fitting(b: NumBuf, v: Value) {
    b.Ints? ==> !v.Float? && (v.UInt? ==> v.u < 0x8000_0000_0000_0000)
  }

  ghost function CellAt(row: Row, col: nat): Value {
    if col < |row| then row[col] else Null
  }

  lemma {:induction false} PushGrows(b: NumBuf, v: Option<Value>, widen: Widen)
    ensures
      var w, r := if v.Some? then v.value else Null, PushValue(b, v, widen);
      (r.Some? <==> Fitting(b, w)) && (r.Some? ==> Grown(b, w, r.value, widen))
  {
    match b
    case Ints(x) => assert forall y: i64 :: (x + [y])[..|x|] == x;
    case Floats(x) => assert forall y: u64 :: (x + [y])[..|x|] == x;
  }

  /** The columns from `col` on fit their buffers. */
  ghost predicate AllFitting(row: Row, slots: seq<int>, col: nat, bufs: seq<NumBuf>)
    requires SlotsFit(slots, |bufs|)
  {
    forall j | col <= j < |slots| && slots[j] >= 0 :: Fitting(bufs[slots[j]], CellAt(row, j))
  }

  /** Each selected column from `col` on has added its value to its buffer, and no other buffer has changed. */
  ghost predicate AllGrown(row: Row, slots: seq<int>, col: nat, bufs: seq<NumBuf>, now: seq<NumBuf>, widen: Widen)
    requires SlotsFit(slots, |bufs|)
  {
    && |now| == |bufs|
    && (forall j | col <= j < |slots| && slots[j] >= 0 ::
          Grown(bufs[slots[j]], CellAt(row, j), now[slots[j]], widen))
    && (forall s | 0 <= s < |bufs| && s !in slots[if col <= |slots| then col else |slots|..] :: now[s] == bufs[s])
  }

  lemma {:induction false} PushRowGrows(row: Row, slots: seq<int>, col: nat, bufs: seq<NumBuf>, widen: Widen)
    requires SlotsFit(slots, |bufs|) && SlotsDistinct(slots)
    ensures
      var (r, now) := PushRow(row, slots, col, bufs, widen);
      && r == Ok(AllFitting(row, slots, col, bufs))
      && (r == Ok(true) ==> AllGrown(row, slots, col, bufs, now, widen))
    decreases |slots| - col
  {
    if col < |slots| {
      var s := slots[col];
      assert slots[col..] == [s] + slots[col + 1..];
      if s < 0 {
        PushRowGrows(row, slots, col + 1, bufs, widen);
      } else {
        var v := if col < |row| then Some(row[col]) else None;
        PushGrows(bufs[s], v, widen);
        if PushValue(bufs[s], v, widen).Some? {
          var next := bufs[s := PushValue(bufs[s], v, widen).value];
          PushRowGrows(row, slots, col + 1, next, widen);
          assert s !in slots[col + 1..];
        }
      }
    }
  }

  /**
   * On every encoded row: the answer is whether every selected value fits its column's buffer, and if so each of these
   * buffers is what it was, followed by that value, and the others are what they were.
   */
  lemma {:induction false} ExtractsValues(row: Row, slots: seq<int>, bufs: seq<NumBuf>, decoded: Option<Row>,
                                          widen: Widen)
    requires StorableRow(row) && SlotsFit(slots, |bufs|) && SlotsDistinct(slots)
    ensures
      var (r, now) := Extracted(ReadValue, Encode(row), |row|, slots, bufs, decoded, widen);
      && r == Ok(AllFitting(row, slots, 0, bufs))
      && (r == Ok(true) ==> AllGrown(row, slots, 0, bufs, now, widen))
  {
    ExtractsRow(row, slots, bufs, decoded, widen);
    PushRowGrows(row, slots, 0, bufs, widen);
  }

  // ------------------------------------------------------------- in place, with undo

  method PushDecoded(decoded: Option<Row>, slots: seq<int>, bufs: array<NumBuf>, widen: Widen)
    returns (r: Result<bool, Error>)
    requires SlotsFit(slots, bufs.Length)
    modifies bufs
    ensures (r, bufs[..]) == DecodedPush(decoded, slots, old(bufs[..]), widen)
  {
    if decoded.None? { return Err(Bincode); }
    var row := decoded.value;
    ghost var goal := PushRow(row, slots, 0, bufs[..], widen);
    for col := 0 to |slots|
      invariant goal == PushRow(row, slots, col, bufs[..], widen)
    {
      var s := slots[col];
      if s >= 0 {
        var p := PushValue(bufs[s], if col < |row| then Some(row[col]) else None, widen);
        if p.None? { return Ok(false); }
        assert bufs[..][s := p.value] == bufs[..s] + [p.value] + bufs[s + 1..];
        bufs[s] := p.value;
      }
    }
    return Ok(true);
  }

  /** Each buffer in `pushed` has gained one value since `entry`; the others none. */
  ghost predicate OnePushed(entry: seq<NumBuf>, bufs: seq<NumBuf>, pushed: set<int>) {
    |entry| == |bufs| && forall s | 0 <= s < |bufs| ::
      if s in pushed then Len(bufs[s]) > 0 && Truncate(bufs[s], Len(bufs[s]) - 1) == entry[s] else bufs[s] == entry[s]
  }

  /** Each buffer still starts with what it held on entry. */
  ghost predicate Longer(entry: seq<NumBuf>, bufs: seq<NumBuf>) {
    |entry| == |bufs| && forall s | 0 <= s < |bufs| ::
      Len(entry[s]) <= Len(bufs[s]) && Truncate(bufs[s], Len(entry[s])) == entry[s]
  }

  lemma {:induction false} PushUndone(b: NumBuf, v: Value, widen: Widen)
    requires IsNumeric(v) && PushNumber(b, v, widen).Some?
    ensures
      var c := PushNumber(b, v, widen).value;
      Len(c) == Len(b) + 1 && Truncate(c, Len(b)) == b && forall n: nat | n <= Len(b) ::
        Truncate(c, n) == Truncate(b, n)
  {
    var c := PushNumber(b, v, widen).value;
    forall n: nat | n <= Len(b) ensures Truncate(c, n) == Truncate(b, n) {
      match b
      case Ints(x) => assert c.ints[..n] == x[..n];
      case Floats(x) => assert c.floats[..n] == x[..n];
    }
    match b
    case Ints(x) => assert x[..|x|] == x;
    case Floats(x) => assert x[..|x|] == x;
  }

  /** Takes back this row's pushes: by the mask of buffers pushed to, or by the lengths on entry. */
  method RollBack(bufs: array<NumBuf>, wide: bool, pushed: set<int>, lens: seq<nat>, ghost entry: seq<NumBuf>)
    requires wide ==> |lens| == bufs.Length == |entry| && Longer(entry, bufs[..]) && forall s | 0 <= s < |lens| ::
                        lens[s] == Len(entry[s])
    requires !wide ==> OnePushed(entry, bufs[..], pushed)
    modifies bufs
    ensures bufs[..] == entry
  {
    for s := 0 to bufs.Length
      invariant forall j | 0 <= j < s :: bufs[j] == entry[j]
      invariant forall j | s <= j < bufs.Length :: bufs[j] == old(bufs[j])
    {
      assert old(bufs[..])[s] == bufs[s];
      if wide {
        bufs[s] := Truncate(bufs[s], lens[s]);
      } else if s in pushed {
        bufs[s] := Truncate(bufs[s], Len(bufs[s]) - 1);
      }
    }
  }

  /** What the loop keeps so that it can undo. */
  ghost predicate Undoable(entry: seq<NumBuf>, bufs: seq<NumBuf>, wide: bool, pushed: set<int>, slots: seq<int>,
                           i: nat) {
    if wide then Longer(entry, bufs)
    else
      && OnePushed(entry, bufs, pushed)
      && forall s | s in pushed :: exists j :: 0 <= j < i && j < |slots| && slots[j] == s
  }

  lemma {:induction false} PushKeepsUndoable(entry: seq<NumBuf>, bufs: seq<NumBuf>, wide: bool, pushed: set<int>,
                                             slots: seq<int>, i: nat,
                                             v: Value, widen: Widen)
    requires Undoable(entry, bufs, wide, pushed, slots, i) && i < |slots| && 0 <= slots[i] < |bufs|
             && SlotsDistinct(slots)
    requires IsNumeric(v) && PushNumber(bufs[slots[i]], v, widen).Some?
    ensures Undoable(entry, bufs[slots[i] := PushNumber(bufs[slots[i]], v, widen).value], wide, pushed + {slots[i]},
                     slots, i + 1)
  {
    PushUndone(bufs[slots[i]], v, widen);
    if !wide {
      assert slots[i] !in pushed;
      assert exists j :: 0 <= j < i + 1 && j < |slots| && slots[j] == slots[i];
      forall s | s in pushed ensures exists j :: 0 <= j < i + 1 && j < |slots| && slots[j] == s {
        var j :| 0 <= j < i && j < |slots| && slots[j] == s;
      }
    }
  }

  lemma {:induction false} SkipKeepsUndoable(entry: seq<NumBuf>, bufs: seq<NumBuf>, wide: bool, pushed: set<int>,
                                             slots: seq<int>, i: nat)
    requires Undoable(entry, bufs, wide, pushed, slots, i)
    ensures Undoable(entry, bufs, wide, pushed, slots, i + 1)
  {
    if !wide {
      forall s | s in pushed ensures exists j :: 0 <= j < i + 1 && j < |slots| && slots[j] == s {
        var j :| 0 <= j < i && j < |slots| && slots[j] == s;
      }
    }
  }

  method Lengths(bufs: array<NumBuf>) returns (lens: seq<nat>)
    ensures |lens| == bufs.Length && forall s | 0 <= s < |lens| :: lens[s] == Len(bufs[s])
  {
    lens := [];
    for s := 0 to bufs.Length
      invariant |lens| == s && forall j | 0 <= j < s :: lens[j] == Len(bufs[j])
    {
      lens := lens + [Len(bufs[s])];
    }
  }

  /**
   * Numeric values of the selected columns, in place. On an unknown tag this row's pushes are taken back first, so
   * the fallback starts from the buffers as they were.
   */
  method ExtractNumericCols(read: Reader, b: bytes, ncols: nat, slots: seq<int>, bufs: array<NumBuf>,
                            bincode: bytes -> Option<Row>,
                            widen: Widen) returns (r: Result<bool, Error>)
    requires Advances(read) && SlotsFit(slots, bufs.Length) && SlotsDistinct(slots)
    modifies bufs
    ensures (r, bufs[..]) == Extracted(read, b, ncols, slots, old(bufs[..]), bincode(b), widen)
  {
    if |b| < 8 { return Err(End); }
    var count := FromLittle(b[..8]);
    if count != ncols {
      r := PushDecoded(bincode(b), slots, bufs, widen);
      return;
    }
    ghost var entry := bufs[..];
    ghost var fallback := DecodedPush(bincode(b), slots, entry, widen);
    ghost var goal := Walk(read, b[8..], 0, count, slots, entry, fallback, widen);
    // The mask is one 64-bit word: bit `s` stands for `s in pushed`, and slots below 64 are all it has to hold.
    var pushed: set<int> := {};
    var wide := bufs.Length > 64;
    var lens: seq<nat> := [];
    if wide { lens := Lengths(bufs); }
    LongerStart(entry);
    var q: nat := 8;
    for i := 0 to count
      invariant q <= |b|
      invariant goal == Walk(read, b[q..], i, count, slots, bufs[..], fallback, widen)
      invariant Undoable(entry, bufs[..], wide, pushed, slots, i)
    {
      var slot := SlotOf(slots, i);
      match read(b[q..]) {
        case Short => return Err(End);
        case Unknown =>
          RollBack(bufs, wide, pushed, lens, entry);
          r := PushDecoded(bincode(b), slots, bufs, widen);
          return;
        case Got(v, rest) =>
          SuffixAdvances(read, b, q);
          if slot >= 0 && IsNumeric(v) {
            var p := PushNumber(bufs[slot], v, widen);
            if p.None? { return Ok(false); }
            PushKeepsUndoable(entry, bufs[..], wide, pushed, slots, i, v, widen);
            UpdateInPlace(bufs, slot, p.value);
            assert !wide ==> slot < 64;
            if !wide { pushed := pushed + {slot}; }
          } else {
            if slot >= 0 { assert bufs[..][slot := bufs[..][slot]] == bufs[..]; }
            SkipKeepsUndoable(entry, bufs[..], wide, pushed, slots, i);
          }
          q := |b| - |rest|;
      }
    }
    return Ok(true);
  }

  lemma {:induction false} LongerStart(entry: seq<NumBuf>)
    ensures Longer(entry, entry)
  {
    forall s | 0 <= s < |entry| ensures Truncate(entry[s], Len(entry[s])) == entry[s] {
      match entry[s]
      case Ints(x) => assert x[..|x|] == x;
      case Floats(x) => assert x[..|x|] == x;
    }
  }

  lemma {:induction false} SuffixAdvances(read: Reader, b: bytes, q: nat)
    requires Advances(read) && q <= |b| && read(b[q..]).Got?
    ensures |read(b[q..]).rest| <= |b| && b[|b| - |read(b[q..]).rest|..] == read(b[q..]).rest
  {
    var s, rest := b[q..], read(b[q..]).rest;
    assert s[|s| - |rest|..] == b[|b| - |rest|..];
  }

  method UpdateInPlace(bufs: array<NumBuf>, slot: int, v: NumBuf)
    requires 0 <= slot < bufs.Length
    modifies bufs
    ensures bufs[..] == old(bufs[..])[slot := v]
  {
    bufs[slot] := v;
  }
}
