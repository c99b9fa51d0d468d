/** Runtime values (crates/elyra-core/src/value.rs). Text is held as its UTF-8 bytes, floats as their bits. */
module Values {
  import opened Bytes

  type u32 = x: int | 0 <= x < 0x1_0000_0000
  type u64 = x: int | 0 <= x < 0x1_0000_0000_0000_0000
  type i32 = x: int | -0x8000_0000 <= x < 0x8000_0000
  type i64 = x: int | -0x8000_0000_0000_0000 <= x < 0x8000_0000_0000_0000
  type i128 = x: int | -0x8000_0000_0000_0000_0000_0000_0000_0000 <= x < 0x8000_0000_0000_0000_0000_0000_0000_0000

  datatype Collation = Ci | Bin

  datatype Value =
    | Null
    | Bool(b: bool)
    | Int(i: i64)
    | Float(bits: u64)
    | Text(s: bytes)
    | Blob(data: bytes)
    | Vector(floats: seq<u32>)
    | Date(days: i32)
    | DateTime(micros: i64)
    | Decimal(units: i128, scale: byte)
    | Time(t: i64)
    | Json(s: bytes)
    | UInt(u: u64)

  predicate Integral(v: Value) {
    v.Int? || v.UInt?
  }

  function IntegerOf(v: Value): int
    requires Integral(v)
  {
    if v.Int? then v.i else v.u
  }

  /** The collation of key column `i`; missing entries default to case-insensitive. */
  function CollationAt(colls: seq<Collation>, i: nat): Collation {
    if i < |colls| then colls[i] else Ci
  }
}
