/** Compiled filters: conjunctions of numeric comparisons (crates/elyra-engine/src/cpred.rs). */
module Cpred {
  import opened Wrappers
  import opened Values
  import opened Comparing

  type Row = seq<Value>

  // ------------------------------------------------------------- the interpreter

  datatype Op = Eq | Ne | Lt | Le | Gt | Ge

  /** Numeric literals as written: digits, digits with a point, or with an exponent. */
  datatype Literal = Whole(n: nat) | Fraction(units: nat, scale: nat) | Exponent(bits: u64)

  datatype Expr =
    | Column(i: nat)
    | Number(lit: Literal)
    | Minus(e: Expr)
    | Nested(e: Expr)
    | And(left: Expr, right: Expr)
    | Compare(op: Op, left: Expr, right: Expr)
    | InList(e: Expr, list: seq<Expr>, negated: bool)
    | Other

  /** The interpreter's view of a literal; `None`: out of range. */
  function LiteralValue(cv: Conversions, lit: Literal): Option<Value> {
    match lit
    case Whole(n) => Some(if n < I64_END then Int(n) else if n < U64_END then UInt(n) else Float(cv.parse(n, 0)))
    case Fraction(u, s) => if u < I128_END && s <= 38 then Some(Decimal(u, s)) else None
    case Exponent(bits) => Some(Float(bits))
  }

  /** Sign of a comparison; `None` for incomparable values. */
  function Sign(cv: Conversions, a: Value, b: Value): Option<int> {
    if IsNumber(a) && IsNumber(b) then Some(NumberSign(cv, a, b)) else cv.others(a, b)
  }

  function Holds(op: Op, sign: int): bool {
    match op
    case Eq => sign == 0
    case Ne => sign != 0
    case Lt => sign < 0
    case Le => sign <= 0
    case Gt => sign > 0
    case Ge => sign >= 0
  }

  function Truthy(cv: Conversions, v: Value): bool {
    match v
    case Bool(b) => b
    case Int(i) => i != 0
    case UInt(u) => u != 0
    case Float(bits) => cv.value(bits) != 0.0
    case Decimal(u, _) => u != 0
    case Null => false
    case _ => cv.truth(v)
  }

  function Bool3(cv: Conversions, v: Value): Option<bool> {
    if v.Null? then None else Some(Truthy(cv, v))
  }

  function Negated(cv: Conversions, v: Value): Option<Value> {
    match v
    case Bool(b) => Some(Int(if b then -1 else 0))
    case Int(i) => if i == -I64_END then None else Some(Int(-i))
    case UInt(u) => if u <= I64_END then Some(Int(0 - u as int)) else None
    case Decimal(u, s) => if u == -I128_END then None else Some(Decimal(-u, s))
    case Float(bits) => Some(Float(cv.negate(bits)))
    case Null => Some(Null)
    case _ => None
  }

  /** The part of `eval_row` the compiler mirrors; `None` is an evaluation error or a form left out. */
  function Eval(cv: Conversions, e: Expr, row: Row): Option<Value>
    decreases e
  {
    match e
    case Column(i) => Some(if i < |row| then row[i] else Null)
    case Number(lit) => LiteralValue(cv, lit)
    case Minus(x) =>
      var v :- Eval(cv, x, row);
      Negated(cv, v)
    case Nested(x) => Eval(cv, x, row)
    case And(l, r) =>
      var a :- Eval(cv, l, row);
      if Bool3(cv, a) == Some(false) then Some(Bool(false)) else
      var b :- Eval(cv, r, row);
      (match (Bool3(cv, a), Bool3(cv, b))
       case (_, Some(false)) => Some(Bool(false))
       case (Some(true), Some(true)) => Some(Bool(true))
       case _ => Some(Null))
    case Compare(op, l, r) =>
      var a :- Eval(cv, l, row);
      var b :- Eval(cv, r, row);
      if a.Null? || b.Null? then Some(Null) else
      (match Sign(cv, a, b)
       case Some(sign) => Some(Bool(Holds(op, sign)))
       case None => Some(Bool(op.Ne?)))
    case InList(x, list, negated) =>
      var v :- Eval(cv, x, row);
      if v.Null? then Some(Null) else EvalIn(cv, v, list, negated, false, row)
    case Other => None
  }

  /** Items are evaluated until one is equal; a NULL among them makes an unmatched list unknown. */
  function EvalIn(cv: Conversions, v: Value, list: seq<Expr>, negated: bool, sawNull: bool, row: Row): Option<Value>
    decreases list
  {
    if list == [] then Some(if sawNull then Null else Bool(negated)) else
    var item :- Eval(cv, list[0], row);
    if item.Null? then EvalIn(cv, v, list[1..], negated, true, row) else
    if Sign(cv, v, item) == Some(0) then Some(Bool(!negated)) else EvalIn(cv, v, list[1..], negated, sawNull, row)
  }

  // --------------------------------------------------------------- compiled terms

  /** `column op rhs`, or membership in a set of numbers with its span. */
  datatype Term = Cmp(col: nat, op: Op, rhs: real) | In(col: nat, members: set<real>, negated: bool, lo: real, hi: real)

  function Test(op: Op, a: real, b: real): bool {
    match op
    case Eq => a == b
    case Ne => a != b
    case Lt => a < b
    case Le => a <= b
    case Gt => a > b
    case Ge => a >= b
  }

  function Flip(op: Op): Op {
    match op
    case Lt => Gt
    case Le => Ge
    case Gt => Lt
    case Ge => Le
    case _ => op
  }

  function Cell(cv: Conversions, row: Row, col: nat): Option<real> {
    if col < |row| then AsF64(cv, row[col]) else None
  }

  predicate TermMatches(cv: Conversions, t: Term, row: Row) {
    match (t, Cell(cv, row, t.col))
    case (Cmp(_, op, rhs), Some(x)) => Test(op, x, rhs)
    case (In(_, members, negated, _, _), Some(x)) => (x in members) != negated
    case (_, None) => false
  }

  predicate Matches(cv: Conversions, conj: seq<Term>, row: Row) {
    forall t | t in conj :: TermMatches(cv, t, row)
  }

  /** A column resolved to a numeric (`Int` or `Float`) column. */
  function NumericCol(numeric: seq<bool>, e: Expr): Option<nat> {
    match e
    case Column(i) => if i < |numeric| && numeric[i] then Some(i) else None
    case _ => None
  }

  function NumLit(cv: Conversions, e: Expr): Option<real> {
    match e
    case Number(Whole(n)) => Some(cv.value(cv.parse(n, 0)))
    case Number(Fraction(u, s)) => Some(cv.value(cv.parse(u, s)))
    case Number(Exponent(bits)) => Some(cv.value(bits))
    case Minus(x) => var v :- NumLit(cv, x); Some(-v)
    case _ => None
  }

  // ------------------------------------------------------------------ agreement

  /** A stored row: NULL, any integer or any float in the numeric columns. */
  ghost predicate Typed(numeric: seq<bool>, row: Row) {
    |row| == |numeric| && forall i | 0 <= i < |row| && numeric[i] :: NumericCell(row[i])
  }

  ghost predicate NumericCell(v: Value) {
    v.Null? || v.Float? || v.Int?
  }

  /** No integer on the wrong side of `n`, as `op` sees it, shares its float. */
  ghost predicate Apart(cv: Conversions, op: Op, n: int) {
    forall m: i64 | cv.ofInt(m) == cv.ofInt(n) :: !OnWrongSide(op, m, n)
  }

  predicate OnWrongSide(op: Op, m: int, n: int) {
    match op
    case Eq | Ne => m != n
    case Lt | Ge => m < n
    case Le | Gt => m > n
  }

  /**
   * The literal is in range, its decimal divides out to the float its text parses to, and integers near it stay
   * apart.
   */
  ghost predicate Settled(cv: Conversions, op: Op, lit: Expr) {
    var v := Eval(cv, lit, []);
    v.Some? && AsF64(cv, v.value) == NumLit(cv, lit) && (Integral(v.value) ==> Apart(cv, op, IntegerOf(v.value)))
  }

  /** What the operators say of numbers. */
  ghost predicate Relates(op: Op, a: int, b: int) {
    || (a == b && op in {Eq, Le, Ge})
    || (a < b && op in {Lt, Le, Ne})
    || (a > b && op in {Gt, Ge, Ne})
  }

  /** The interpreter compares integers as integers, and a NULL cell to NULL. */
  lemma {:induction false} IntegersCompare(cv: Conversions, op: Op, x: Expr, y: Expr, row: Row, v: Value, w: Value)
    requires Eval(cv, x, row) == Some(v) && Eval(cv, y, row) == Some(w)
    ensures Integral(v) && Integral(w) ==>
              Eval(cv, Compare(op, x, y), row) == Some(Bool(Relates(op, IntegerOf(v), IntegerOf(w))))
    ensures v.Null? || w.Null? ==> Eval(cv, Compare(op, x, y), row) == Some(Null)
  {
  }

  /** A value is true if it does not compare equal to a zero of its kind. */
  lemma {:induction false} TruthMeans(cv: Conversions, v: Value)
    requires Sound(cv)
    ensures Integral(v) ==> (Truthy(cv, v) <==> NumberSign(cv, v, Int(0)) != 0)
    ensures v.Float? || v.Bool? ==> (Truthy(cv, v) <==> NumberSign(cv, v, Int(0)) != 0)
    ensures v.Decimal? ==> (Truthy(cv, v) <==> NumberSign(cv, v, Decimal(0, v.scale)) != 0)
    ensures v.Null? ==> !Truthy(cv, v)
  {
    assert cv.ofInt(0) == 0.0;
    if v.Decimal? {
      WidenNothing(v.units);
      WidenNothing(0);
    }
  }

  /** Decimal literals with the same number of places compare as the numbers they are. */
  lemma {:induction false} DecimalLiterals(cv: Conversions, op: Op, a: nat, b: nat, s: nat, row: Row)
    requires a < 0x8000_0000_0000_0000_0000_0000_0000_0000 && b < 0x8000_0000_0000_0000_0000_0000_0000_0000 && s <= 38
    ensures Eval(cv, Compare(op, Number(Fraction(a, s)), Number(Fraction(b, s))), row) == Some(Bool(Relates(op, a, b)))
  {
    WidenNothing(a);
    WidenNothing(b);
  }

  /** A minus sign makes whole literals negative down to the least integer; from there to 2^64 they are out of range. */
  lemma {:induction false} NegatedWhole(cv: Conversions, n: nat, row: Row)
    ensures n <= 0x8000_0000_0000_0000 ==> Eval(cv, Minus(Number(Whole(n))), row) == Some(Int(0 - n))
    ensures 0x8000_0000_0000_0000 < n < 0x1_0000_0000_0000_0000 ==> Eval(cv, Minus(Number(Whole(n))), row) == None
  {
  }

  /** Every whole literal below 2^53 stays apart. */
  lemma {:induction false} WithinExact(cv: Conversions, op: Op, n: int)
    requires Sound(cv) && -EXACT < n < EXACT
    ensures Apart(cv, op, n)
  {
    forall m: i64 | m != n ensures cv.ofInt(m) != cv.ofInt(n) {
      assert cv.ofInt(n - 1) < cv.ofInt(n) < cv.ofInt(n + 1);
      if m > n {
        assert cv.ofInt(n + 1) <= cv.ofInt(m);
      } else {
        assert cv.ofInt(m) <= cv.ofInt(n - 1);
      }
    }
  }

  /** A whole literal below 2^53, with or without a minus sign, is settled for every operator. */
  lemma {:induction false} WholeSettled(cv: Conversions, op: Op, n: nat)
    requires Sound(cv) && n < EXACT
    ensures Settled(cv, op, Number(Whole(n))) && Settled(cv, op, Minus(Number(Whole(n))))
  {
    WithinExact(cv, op, n);
    WithinExact(cv, op, 0 - n as int);
    LiteralAgrees(cv, Minus(Number(Whole(n))), []);
  }

  /**
   * A literal has the same value on every row: a number, and if no decimal one whose float is the one the compiler
   * parsed.
   */
  lemma {:induction false} LiteralAgrees(cv: Conversions, e: Expr, row: Row)
    requires Sound(cv) && NumLit(cv, e).Some?
    ensures Eval(cv, e, row) == Eval(cv, e, [])
    ensures Eval(cv, e, []).Some? ==>
              var v := Eval(cv, e, []).value;
              (Integral(v) || v.Float? || v.Decimal?) && (!v.Decimal? ==> AsF64(cv, v) == NumLit(cv, e))
    decreases e
  {
    if e.Minus? {
      LiteralAgrees(cv, e.e, row);
      var v := Eval(cv, e.e, []);
      if v.Some? && Integral(v.value) {
        NegatedInteger(cv, IntegerOf(v.value));
      } else if v.Some? && v.value.Float? {
        assert cv.value(cv.negate(v.value.bits)) == -cv.value(v.value.bits);
      }
    }
  }

  lemma {:induction false} NegatedInteger(cv: Conversions, i: int)
    requires Sound(cv)
    ensures -I64_END <= i <= I64_END ==> cv.ofInt(-i) == -cv.ofInt(i)
  {
    if -I64_END <= i < 0 {
      assert cv.ofInt(-(-i)) == -cv.ofInt(-i);
    }
  }

  /** Comparing a cell with a settled literal as floats is comparing it as the interpreter does. */
  lemma {:induction false} SignAgrees(cv: Conversions, a: Value, b: Value, op: Op)
    requires Sound(cv) && (a.Int? || a.Float?) && (Integral(b) || b.Float? || b.Decimal?)
    requires Integral(b) ==> Apart(cv, op, IntegerOf(b))
    ensures AsF64(cv, a).Some? && AsF64(cv, b).Some? && Sign(cv, a, b).Some? && Sign(cv, b, a).Some?
    ensures Holds(op, Sign(cv, a, b).value) == Test(op, AsF64(cv, a).value, AsF64(cv, b).value)
    ensures Holds(Flip(op), Sign(cv, b, a).value) == Test(op, AsF64(cv, a).value, AsF64(cv, b).value)
  {
    if a.Int? && Integral(b) {
      var m, n := a.i, IntegerOf(b);
      assert m <= n ==> cv.ofInt(m) <= cv.ofInt(n);
      assert n <= m ==> cv.ofInt(n) <= cv.ofInt(m);
    }
  }

  /** The row passes the filter: evaluation succeeds and the result is true. */
  ghost predicate Passes(cv: Conversions, e: Expr, row: Row) {
    Eval(cv, e, row).Some? && Truthy(cv, Eval(cv, e, row).value)
  }

  /** The compiled terms are right for every typed row, and the interpreter has no error to report. */
  ghost predicate Compiles(cv: Conversions, numeric: seq<bool>, e: Expr, terms: seq<Term>) {
    forall row | Typed(numeric, row) :: Eval(cv, e, row).Some? && (Matches(cv, terms, row) <==> Passes(cv, e, row))
  }

  lemma {:induction false} CompareCompiles(cv: Conversions, numeric: seq<bool>, op: Op, col: nat, lit: Expr, row: Row)
    requires Sound(cv) && Typed(numeric, row) && col < |numeric| && numeric[col]
    requires NumLit(cv, lit).Some? && Settled(cv, op, lit)
    ensures
      var t := Cmp(col, op, NumLit(cv, lit).value);
      var right, left := Compare(op, Column(col), lit), Compare(Flip(op), lit, Column(col));
      && Eval(cv, right, row).Some? && (TermMatches(cv, t, row) <==> Passes(cv, right, row))
      && Eval(cv, left, row).Some? && (TermMatches(cv, t, row) <==> Passes(cv, left, row))
  {
    LiteralAgrees(cv, lit, row);
    if !row[col].Null? {
      SignAgrees(cv, row[col], Eval(cv, lit, []).value, op);
    }
  }

  // ------------------------------------------------------- where they part company

  /** A row that holds `v` in every column. */
  ghost function Filled(numeric: seq<bool>, v: Value): (row: Row)
    requires NumericCell(v)
    ensures Typed(numeric, row)
  {
    seq(|numeric|, i => v)
  }

  /** The bits of a literal's float. */
  ghost function LitBits(cv: Conversions, e: Expr): (b: u64)
    requires Sound(cv) && NumLit(cv, e).Some?
    ensures cv.value(b) == NumLit(cv, e).value
  {
    match e
    case Number(Whole(n)) => cv.parse(n, 0)
    case Number(Fraction(u, s)) => cv.parse(u, s)
    case Number(Exponent(bits)) => bits
    case Minus(x) => cv.negate(LitBits(cv, x))
  }

  /** A cell on which an unsettled literal, although in range, gives the two different answers. */
  ghost function Witness(cv: Conversions, op: Op, lit: Expr): (c: Value)
    requires Sound(cv) && NumLit(cv, lit).Some? && Eval(cv, lit, []).Some? && !Settled(cv, op, lit)
    ensures c.Int? || c.Float?
  {
    var v := Eval(cv, lit, []).value;
    if AsF64(cv, v) == NumLit(cv, lit) then
      var m: i64 :| cv.ofInt(m) == cv.ofInt(IntegerOf(v)) && OnWrongSide(op, m, IntegerOf(v));
      Int(m)
    else
      LiteralAgrees(cv, lit, []);
      var x, y := LitBits(cv, lit), cv.ofDecimal(v.units, v.scale);
      if (op == Lt || op == Ge) == (cv.value(x) < cv.value(y)) then Float(x) else Float(y)
  }

  lemma {:induction false} WitnessDiffers(cv: Conversions, op: Op, lit: Expr)
    requires Sound(cv) && NumLit(cv, lit).Some? && Eval(cv, lit, []).Some? && !Settled(cv, op, lit)
    ensures
      var c, v := Witness(cv, op, lit), Eval(cv, lit, []).value;
      && AsF64(cv, c).Some? && Sign(cv, c, v).Some? && Sign(cv, v, c).Some?
      && Holds(op, Sign(cv, c, v).value) != Test(op, AsF64(cv, c).value, NumLit(cv, lit).value)
      && Holds(Flip(op), Sign(cv, v, c).value) == Holds(op, Sign(cv, c, v).value)
  {
    LiteralAgrees(cv, lit, []);
  }

  /**
   * Exactly when a comparison with a literal compiles to the same filter: the literal is settled. Anything else,
   * a literal out of range included, shows on some stored row.
   */
  lemma {:induction false} CompareCompilesIff(cv: Conversions, numeric: seq<bool>, op: Op, col: nat, lit: Expr)
    requires Sound(cv) && col < |numeric| && numeric[col] && NumLit(cv, lit).Some?
    ensures
      var t := Cmp(col, op, NumLit(cv, lit).value);
      && (Compiles(cv, numeric, Compare(op, Column(col), lit), [t]) <==> Settled(cv, op, lit))
      && (Compiles(cv, numeric, Compare(Flip(op), lit, Column(col)), [t]) <==> Settled(cv, op, lit))
  {
    var t := Cmp(col, op, NumLit(cv, lit).value);
    var right, left := Compare(op, Column(col), lit), Compare(Flip(op), lit, Column(col));
    if Settled(cv, op, lit) {
      forall row | Typed(numeric, row)
        ensures Eval(cv, right, row).Some? && (Matches(cv, [t], row) <==> Passes(cv, right, row))
        ensures Eval(cv, left, row).Some? && (Matches(cv, [t], row) <==> Passes(cv, left, row))
      {
        CompareCompiles(cv, numeric, op, col, lit, row);
      }
    } else {
      var c := if Eval(cv, lit, []).Some? then Witness(cv, op, lit) else Null;
      var row := Filled(numeric, c);
      LiteralAgrees(cv, lit, row);
      if Eval(cv, lit, []).Some? {
        WitnessDiffers(cv, op, lit);
        assert Eval(cv, Column(col), row) == Some(c);
        assert TermMatches(cv, t, row) == Test(op, AsF64(cv, c).value, NumLit(cv, lit).value);
        assert Eval(cv, right, row) == Some(Bool(Holds(op, Sign(cv, c, Eval(cv, lit, []).value).value)));
        assert Eval(cv, left, row) == Some(Bool(Holds(Flip(op), Sign(cv, Eval(cv, lit, []).value, c).value)));
        assert Matches(cv, [t], row) <==> TermMatches(cv, t, row);
      }
      assert Typed(numeric, row);
    }
  }

  /** The floats of a list of literals. */
  ghost function Numbers(cv: Conversions, list: seq<Expr>): set<real>
    requires forall y | y in list :: NumLit(cv, y).Some?
  {
    set y | y in list :: NumLit(cv, y).value
  }

  // ----------------------------------------------------------------------- IN lists

  ghost predicate Literals(cv: Conversions, list: seq<Expr>) {
    forall y | y in list :: NumLit(cv, y).Some?
  }

  ghost predicate AllInRange(cv: Conversions, list: seq<Expr>) {
    forall y | y in list :: Eval(cv, y, []).Some?
  }

  /** The floats the interpreter takes the literals for. */
  ghost function Divided(cv: Conversions, list: seq<Expr>): set<Option<real>>
    requires AllInRange(cv, list)
  {
    set y | y in list :: AsF64(cv, Eval(cv, y, []).value)
  }

  /** The interpreter finds the value in the list. */
  ghost predicate Listed(cv: Conversions, v: Value, list: seq<Expr>)
    requires AllInRange(cv, list)
  {
    exists y | y in list :: Sign(cv, v, Eval(cv, y, []).value) == Some(0)
  }

  /** The integer is listed, or its float is by a literal that is no integer. */
  ghost predicate Named(cv: Conversions, m: i64, list: seq<Expr>)
    requires AllInRange(cv, list)
  {
    exists y | y in list :: NamedBy(cv, m, Eval(cv, y, []).value)
  }

  ghost predicate NamedBy(cv: Conversions, m: i64, v: Value) {
    if Integral(v) then IntegerOf(v) == m else AsF64(cv, v) == Some(cv.ofInt(m))
  }

  /**
   * The literals are in range, parse to the floats they divide out to (one may make up for another), and every
   * integer that shares a listed float is itself listed.
   */
  ghost predicate ListSettled(cv: Conversions, list: seq<Expr>)
    requires Literals(cv, list)
  {
    && AllInRange(cv, list)
    && (forall x :: x in Numbers(cv, list) <==> Some(x) in Divided(cv, list))
    && (forall m: i64 | cv.ofInt(m) in Numbers(cv, list) :: Named(cv, m, list))
  }

  lemma {:induction false} ListedAgrees(cv: Conversions, v: Value, list: seq<Expr>, negated: bool, row: Row)
    requires Sound(cv) && (v.Int? || v.Float?) && Literals(cv, list) && AllInRange(cv, list)
    ensures EvalIn(cv, v, list, negated, false, row) == Some(Bool(Listed(cv, v, list) != negated))
    decreases |list|
  {
    if list != [] {
      var y := list[0];
      assert y in list;
      LiteralAgrees(cv, y, row);
      ListedAgrees(cv, v, list[1..], negated, row);
      if Listed(cv, v, list) && Sign(cv, v, Eval(cv, y, []).value) != Some(0) {
        var z :| z in list && Sign(cv, v, Eval(cv, z, []).value) == Some(0);
        assert z in list[1..];
      }
    }
  }

  lemma {:induction false} ListedInteger(cv: Conversions, m: i64, list: seq<Expr>)
    requires Sound(cv) && Literals(cv, list) && AllInRange(cv, list)
    ensures Listed(cv, Int(m), list) <==> Named(cv, m, list)
  {
    forall y | y in list ensures Sign(cv, Int(m), Eval(cv, y, []).value) == Some(0)
                            <==> NamedBy(cv, m, Eval(cv, y, []).value) {
      LiteralAgrees(cv, y, []);
    }
  }

  lemma {:induction false} ListedFloat(cv: Conversions, bits: u64, list: seq<Expr>)
    requires Sound(cv) && Literals(cv, list) && AllInRange(cv, list)
    ensures Listed(cv, Float(bits), list) <==> Some(cv.value(bits)) in Divided(cv, list)
  {
    forall y | y in list
      ensures Sign(cv, Float(bits), Eval(cv, y, []).value) == Some(0)
         <==> AsF64(cv, Eval(cv, y, []).value) == Some(cv.value(bits))
    {
      LiteralAgrees(cv, y, []);
    }
    if Some(cv.value(bits)) in Divided(cv, list) {
      var y :| y in list && AsF64(cv, Eval(cv, y, []).value) == Some(cv.value(bits));
    }
  }

  lemma {:induction false} NamedIsNumber(cv: Conversions, m: i64, list: seq<Expr>)
    requires Sound(cv) && Literals(cv, list) && ListSettled(cv, list)
    ensures Named(cv, m, list) <==> cv.ofInt(m) in Numbers(cv, list)
  {
    if Named(cv, m, list) {
      var y :| y in list && NamedBy(cv, m, Eval(cv, y, []).value);
      assert AsF64(cv, Eval(cv, y, []).value) == Some(cv.ofInt(m));
      assert Some(cv.ofInt(m)) in Divided(cv, list);
    }
  }

  /** Over a settled list the interpreter's IN is membership among the floats the compiler parsed. */
  lemma {:induction false} InAgrees(cv: Conversions, v: Value, list: seq<Expr>, negated: bool, row: Row)
    requires Sound(cv) && (v.Int? || v.Float?) && Literals(cv, list) && ListSettled(cv, list)
    ensures EvalIn(cv, v, list, negated, false, row)
         == Some(Bool((AsF64(cv, v).value in Numbers(cv, list)) != negated))
  {
    ListedAgrees(cv, v, list, negated, row);
    if v.Int? {
      ListedInteger(cv, v.i, list);
      NamedIsNumber(cv, v.i, list);
    } else {
      ListedFloat(cv, v.bits, list);
    }
  }

  lemma {:induction false} InCompiles(cv: Conversions, numeric: seq<bool>, col: nat, list: seq<Expr>, negated: bool,
                                      term: Term, row: Row)
    requires Sound(cv) && Typed(numeric, row) && col < |numeric| && numeric[col] && Literals(cv, list)
             && ListSettled(cv, list)
    requires IsListTerm(cv, col, list, negated, term)
    ensures
      var e := InList(Column(col), list, negated);
      Eval(cv, e, row).Some? && (TermMatches(cv, term, row) <==> Passes(cv, e, row))
  {
    if !row[col].Null? {
      InAgrees(cv, row[col], list, negated, row);
    }
  }

  ghost predicate IsListTerm(cv: Conversions, col: nat, list: seq<Expr>, negated: bool, term: Term)
    requires Literals(cv, list)
  {
    term.In? && term.col == col && term.members == Numbers(cv, list) && term.negated == negated
  }

  /** What the compiled list answers on a row that holds `c` everywhere, if the two agree on all rows. */
  lemma {:induction false} InOnCell(cv: Conversions, numeric: seq<bool>, col: nat, list: seq<Expr>, negated: bool,
                                    term: Term, c: Value)
    requires Sound(cv) && col < |numeric| && numeric[col] && Literals(cv, list) && AllInRange(cv, list)
    requires IsListTerm(cv, col, list, negated, term) && (c.Int? || c.Float?)
    requires Compiles(cv, numeric, InList(Column(col), list, negated), [term])
    ensures Listed(cv, c, list) <==> AsF64(cv, c).value in Numbers(cv, list)
  {
    var row := Filled(numeric, c);
    var e := InList(Column(col), list, negated);
    ListedAgrees(cv, c, list, negated, row);
    assert Eval(cv, Column(col), row) == Some(c);
    assert Eval(cv, e, row) == Some(Bool(Listed(cv, c, list) != negated));
    assert Matches(cv, [term], row) <==> TermMatches(cv, term, row);
    assert Typed(numeric, row);
  }

  lemma {:induction false} ParsedDivides(cv: Conversions, numeric: seq<bool>, col: nat, list: seq<Expr>, negated: bool,
                                         term: Term, x: real)
    requires Sound(cv) && col < |numeric| && numeric[col] && Literals(cv, list) && AllInRange(cv, list)
    requires IsListTerm(cv, col, list, negated, term)
             && Compiles(cv, numeric, InList(Column(col), list, negated), [term])
    requires x in Numbers(cv, list)
    ensures Some(x) in Divided(cv, list)
  {
    var y :| y in list && NumLit(cv, y).value == x;
    var bits := LitBits(cv, y);
    InOnCell(cv, numeric, col, list, negated, term, Float(bits));
    ListedFloat(cv, bits, list);
  }

  lemma {:induction false} DividedParses(cv: Conversions, numeric: seq<bool>, col: nat, list: seq<Expr>, negated: bool,
                                         term: Term, x: real)
    requires Sound(cv) && col < |numeric| && numeric[col] && Literals(cv, list) && AllInRange(cv, list)
    requires IsListTerm(cv, col, list, negated, term)
             && Compiles(cv, numeric, InList(Column(col), list, negated), [term])
    requires Some(x) in Divided(cv, list)
    ensures x in Numbers(cv, list)
  {
    var y :| y in list && AsF64(cv, Eval(cv, y, []).value) == Some(x);
    LiteralAgrees(cv, y, []);
    var v := Eval(cv, y, []).value;
    if v.Decimal? {
      var bits := cv.ofDecimal(v.units, v.scale);
      InOnCell(cv, numeric, col, list, negated, term, Float(bits));
      ListedFloat(cv, bits, list);
    } else {
      assert NumLit(cv, y).value == x;
    }
  }

  lemma {:induction false} InNecessary(cv: Conversions, numeric: seq<bool>, col: nat, list: seq<Expr>, negated: bool,
                                       term: Term)
    requires Sound(cv) && col < |numeric| && numeric[col] && Literals(cv, list) && AllInRange(cv, list)
    requires IsListTerm(cv, col, list, negated, term)
             && Compiles(cv, numeric, InList(Column(col), list, negated), [term])
    ensures ListSettled(cv, list)
  {
    forall x | x in Numbers(cv, list) ensures Some(x) in Divided(cv, list) {
      ParsedDivides(cv, numeric, col, list, negated, term, x);
    }
    forall x: real | Some(x) in Divided(cv, list) ensures x in Numbers(cv, list) {
      DividedParses(cv, numeric, col, list, negated, term, x);
    }
    forall m: i64 | cv.ofInt(m) in Numbers(cv, list) ensures Named(cv, m, list) {
      InOnCell(cv, numeric, col, list, negated, term, Int(m));
      ListedInteger(cv, m, list);
    }
  }

  /** Exactly when an IN list of literals in range compiles to the same filter: the list is settled. */
  lemma {:induction false} InCompilesIff(cv: Conversions, numeric: seq<bool>, col: nat, list: seq<Expr>, negated: bool,
                                         term: Term)
    requires Sound(cv) && col < |numeric| && numeric[col] && Literals(cv, list) && AllInRange(cv, list)
    requires IsListTerm(cv, col, list, negated, term)
    ensures Compiles(cv, numeric, InList(Column(col), list, negated), [term]) <==> ListSettled(cv, list)
  {
    if ListSettled(cv, list) {
      InTermCompiles(cv, numeric, col, list, negated, term);
    } else if Compiles(cv, numeric, InList(Column(col), list, negated), [term]) {
      InNecessary(cv, numeric, col, list, negated, term);
    }
  }

  /** Literals settled one by one make a settled list. */
  lemma {:induction false} EachSettles(cv: Conversions, list: seq<Expr>)
    requires Sound(cv) && Literals(cv, list) && forall y | y in list :: Settled(cv, Eq, y)
    ensures ListSettled(cv, list)
  {
    forall x | x in Numbers(cv, list) ensures Some(x) in Divided(cv, list) {
      var y :| y in list && NumLit(cv, y).value == x;
      assert AsF64(cv, Eval(cv, y, []).value) == Some(x);
    }
    forall x: real | Some(x) in Divided(cv, list) ensures x in Numbers(cv, list) {
      var y :| y in list && AsF64(cv, Eval(cv, y, []).value) == Some(x);
      assert NumLit(cv, y).value == x;
    }
    forall m: i64 | cv.ofInt(m) in Numbers(cv, list) ensures Named(cv, m, list) {
      var y :| y in list && NumLit(cv, y).value == cv.ofInt(m);
      assert NamedBy(cv, m, Eval(cv, y, []).value);
    }
  }

  // ------------------------------------------------------- a list with a literal out of range

  /** Among more integers than a set of reals holds, one is not in it. */
  lemma {:induction false} FreshInteger(f: set<real>, n: nat) returns (m: nat)
    requires |f| < n
    ensures m < n && m as real !in f
  {
    m := n - 1;
    if m as real in f {
      var k := FreshInteger(f - {m as real}, n - 1);
      m := k;
    }
  }

  /** The floats of the literals that are in range. */
  ghost function Known(cv: Conversions, list: seq<Expr>): (f: set<real>)
    ensures |f| <= |list|
    ensures forall y | y in list && Eval(cv, y, []).Some? && AsF64(cv, Eval(cv, y, []).value).Some? ::
              AsF64(cv, Eval(cv, y, []).value).value in f
  {
    if list == [] then {} else
    var v := Eval(cv, list[0], []);
    Known(cv, list[1..]) + (if v.Some? && AsF64(cv, v.value).Some? then {AsF64(cv, v.value).value} else {})
  }

  lemma {:induction false} UnmatchedFails(cv: Conversions, v: Value, list: seq<Expr>, negated: bool, row: Row)
    requires Sound(cv) && Literals(cv, list) && !AllInRange(cv, list)
    requires forall y | y in list && Eval(cv, y, []).Some? :: Sign(cv, v, Eval(cv, y, []).value) != Some(0)
    ensures EvalIn(cv, v, list, negated, false, row).None?
    decreases |list|
  {
    var y := list[0];
    assert y in list;
    LiteralAgrees(cv, y, row);
    if Eval(cv, y, []).Some? {
      UnmatchedFails(cv, v, list[1..], negated, row);
    }
  }

  /**
   * A literal out of range anywhere in the list shows: on a cell no other literal matches, the interpreter reports
   * an error and no compiled filter does. (There is such a cell unless the list has more than 2^53 items.)
   */
  lemma {:induction false} OutOfRangeShows(cv: Conversions, numeric: seq<bool>, col: nat, list: seq<Expr>,
                                           negated: bool, terms: seq<Term>)
    requires Sound(cv) && col < |numeric| && numeric[col] && Literals(cv, list) && !AllInRange(cv, list)
             && |list| <= EXACT
    ensures !Compiles(cv, numeric, InList(Column(col), list, negated), terms)
  {
    var f := Known(cv, list);
    var m := FreshInteger(f, |f| + 1);
    var c := Int(m);
    forall y | y in list && Eval(cv, y, []).Some? ensures Sign(cv, c, Eval(cv, y, []).value) != Some(0) {
      LiteralAgrees(cv, y, []);
      assert AsF64(cv, c) == Some(m as real);
    }
    var row := Filled(numeric, c);
    UnmatchedFails(cv, c, list, negated, row);
    assert Eval(cv, Column(col), row) == Some(c);
    assert Typed(numeric, row) && Eval(cv, InList(Column(col), list, negated), row).None?;
  }

  // --------------------------------------------------------------- the compiler

  /** The shape `collect` accepts. */
  predicate Compilable(cv: Conversions, numeric: seq<bool>, e: Expr) {
    match e
    case Nested(x) => Compilable(cv, numeric, x)
    case And(l, r) => Compilable(cv, numeric, l) && Compilable(cv, numeric, r)
    case Compare(_, l, r) =>
      || (NumericCol(numeric, l).Some? && NumLit(cv, r).Some?)
      || (NumLit(cv, l).Some? && NumericCol(numeric, r).Some?)
    case InList(x, list, _) =>
      NumericCol(numeric, x).Some? && list != [] && forall i | 0 <= i < |list| :: NumLit(cv, list[i]).Some?
    case _ => false
  }

  /** Every literal of the filter is settled. */
  ghost predicate AllSettled(cv: Conversions, numeric: seq<bool>, e: Expr) {
    match e
    case Nested(x) => AllSettled(cv, numeric, x)
    case And(l, r) => AllSettled(cv, numeric, l) && AllSettled(cv, numeric, r)
    case Compare(op, l, r) =>
      if NumericCol(numeric, l).Some? && NumLit(cv, r).Some? then Settled(cv, op, r) else Settled(cv, Flip(op), l)
    case InList(_, list, _) => Literals(cv, list) && ListSettled(cv, list)
    case _ => true
  }

  /** An IN term's span covers its members and no more. */
  ghost predicate Spans(t: Term) {
    t.In? ==> t.lo in t.members && t.hi in t.members && forall x | x in t.members :: t.lo <= x <= t.hi
  }

  /** The loop over an IN list: members, least and greatest, or `None` at the first item that is no literal. */
  method ListTerm(cv: Conversions, col: nat, list: seq<Expr>, negated: bool) returns (r: Option<Term>)
    requires list != []
    ensures r.Some? <==> forall i | 0 <= i < |list| :: NumLit(cv, list[i]).Some?
    ensures r.Some? ==> r.value.In? && r.value.col == col && r.value.negated == negated && Spans(r.value)
    ensures r.Some? ==> (forall y | y in list :: NumLit(cv, y).Some?) && r.value.members == Numbers(cv, list)
  {
    var members: set<real> := {};
    var lo, hi := 0.0, 0.0;
    for i := 0 to |list|
      invariant forall y | y in list[..i] :: NumLit(cv, y).Some?
      invariant members == Numbers(cv, list[..i])
      invariant i > 0 ==> lo in members && hi in members && forall x | x in members :: lo <= x <= hi
    {
      var v := NumLit(cv, list[i]);
      if v.None? { return None; }
      assert list[..i + 1] == list[..i] + [list[i]];
      NumbersSnoc(cv, list[..i], list[i]);
      members := members + {v.value};
      lo := if i == 0 || v.value < lo then v.value else lo;
      hi := if i == 0 || v.value > hi then v.value else hi;
    }
    assert list[..|list|] == list;
    return Some(In(col, members, negated, lo, hi));
  }

  lemma {:induction false} NumbersSnoc(cv: Conversions, list: seq<Expr>, y: Expr)
    requires (forall x | x in list :: NumLit(cv, x).Some?) && NumLit(cv, y).Some?
    ensures Numbers(cv, list + [y]) == Numbers(cv, list) + {NumLit(cv, y).value}
  {
    assert y in list + [y];
    forall z | z in Numbers(cv, list) ensures z in Numbers(cv, list + [y]) {
      var x :| x in list && NumLit(cv, x).value == z;
      assert x in list + [y];
    }
  }

  ghost predicate TermsOk(numeric: seq<bool>, terms: seq<Term>) {
    forall t | t in terms :: Spans(t) && t.col < |numeric| && numeric[t.col]
  }

  lemma {:induction false} AndCompiles(cv: Conversions, numeric: seq<bool>, l: Expr, r: Expr, a: seq<Term>,
                                       b: seq<Term>)
    requires Compiles(cv, numeric, l, a) && Compiles(cv, numeric, r, b)
    ensures Compiles(cv, numeric, And(l, r), a + b)
  {
    forall row | Typed(numeric, row)
      ensures Eval(cv, And(l, r), row).Some? && (Matches(cv, a + b, row) <==> Passes(cv, And(l, r), row))
    {
      assert Matches(cv, a + b, row) <==> Matches(cv, a, row) && Matches(cv, b, row) by {
        assert forall t | t in a :: t in a + b;
        assert forall t | t in b :: t in a + b;
      }
    }
  }

  /**
   * `collect`: appends the terms of a filter, or declines. What it accepts agrees with the interpreter on every
   * typed row, NULLs and three-valued AND included.
   */
  method Collect(cv: Conversions, numeric: seq<bool>, e: Expr, out: seq<Term>) returns (r: Option<seq<Term>>)
    ensures r.Some? <==> Compilable(cv, numeric, e)
    ensures r.Some? ==> |r.value| > |out| && r.value[..|out|] == out && TermsOk(numeric, r.value[|out|..])
    ensures r.Some? && Sound(cv) && AllSettled(cv, numeric, e) ==> Compiles(cv, numeric, e, r.value[|out|..])
    decreases e
  {
    match e
    case Nested(x) =>
      r := Collect(cv, numeric, x, out);
      if r.Some? && Sound(cv) && AllSettled(cv, numeric, e) {
        NestedCompiles(cv, numeric, x, r.value[|out|..]);
      }
    case And(left, right) =>
      var a := Collect(cv, numeric, left, out);
      if a.None? { return None; }
      r := Collect(cv, numeric, right, a.value);
      if r.Some? {
        assert r.value[|out|..] == a.value[|out|..] + r.value[|a.value|..];
        assert r.value[..|out|] == r.value[..|a.value|][..|out|];
        if Sound(cv) && AllSettled(cv, numeric, e) {
          AndCompiles(cv, numeric, left, right, a.value[|out|..], r.value[|a.value|..]);
        }
      }
    case Compare(op, left, right) =>
      var term;
      if NumericCol(numeric, left).Some? && NumLit(cv, right).Some? {
        term := Cmp(NumericCol(numeric, left).value, op, NumLit(cv, right).value);
      } else if NumLit(cv, left).Some? && NumericCol(numeric, right).Some? {
        term := Cmp(NumericCol(numeric, right).value, Flip(op), NumLit(cv, left).value);
      } else {
        return None;
      }
      r := Some(out + [term]);
      assert r.value[|out|..] == [term];
      if Sound(cv) && AllSettled(cv, numeric, e) {
        CompareTermCompiles(cv, numeric, op, left, right, term);
      }
    case InList(x, list, negated) =>
      var col := NumericCol(numeric, x);
      if col.None? || list == [] { return None; }
      var term := ListTerm(cv, col.value, list, negated);
      if term.None? { return None; }
      r := Some(out + [term.value]);
      assert r.value[|out|..] == [term.value];
      if Sound(cv) && AllSettled(cv, numeric, e) {
        InTermCompiles(cv, numeric, col.value, list, negated, term.value);
      }
    case _ => return None;
  }

  lemma {:induction false} NestedCompiles(cv: Conversions, numeric: seq<bool>, x: Expr, terms: seq<Term>)
    requires Compiles(cv, numeric, x, terms)
    ensures Compiles(cv, numeric, Nested(x), terms)
  {
    forall row | Typed(numeric, row)
      ensures Eval(cv, Nested(x), row).Some? && (Matches(cv, terms, row) <==> Passes(cv, Nested(x), row))
    {
    }
  }

  lemma {:induction false} CompareTermCompiles(cv: Conversions, numeric: seq<bool>, op: Op, left: Expr, right: Expr,
                                               term: Term)
    requires Sound(cv) && AllSettled(cv, numeric, Compare(op, left, right))
    requires if NumericCol(numeric, left).Some? && NumLit(cv, right).Some?
             then term == Cmp(NumericCol(numeric, left).value, op, NumLit(cv, right).value)
             else NumLit(cv, left).Some? && NumericCol(numeric, right).Some?
                  && term == Cmp(NumericCol(numeric, right).value, Flip(op), NumLit(cv, left).value)
    ensures Compiles(cv, numeric, Compare(op, left, right), [term])
  {
    if NumericCol(numeric, left).Some? && NumLit(cv, right).Some? {
      CompareCompilesIff(cv, numeric, op, term.col, right);
    } else {
      CompareCompilesIff(cv, numeric, Flip(op), term.col, left);
      assert Flip(Flip(op)) == op;
    }
  }

  lemma {:induction false} InTermCompiles(cv: Conversions, numeric: seq<bool>, col: nat, list: seq<Expr>, negated: bool,
                                          term: Term)
    requires Sound(cv) && col < |numeric| && numeric[col] && Literals(cv, list) && ListSettled(cv, list)
    requires IsListTerm(cv, col, list, negated, term)
    ensures Compiles(cv, numeric, InList(Column(col), list, negated), [term])
  {
    var e := InList(Column(col), list, negated);
    forall row | Typed(numeric, row)
      ensures Eval(cv, e, row).Some? && (Matches(cv, [term], row) <==> Passes(cv, e, row))
    {
      InCompiles(cv, numeric, col, list, negated, term, row);
      assert Matches(cv, [term], row) <==> TermMatches(cv, term, row);
    }
  }

  // ---------------------------------------------------------- bounds for skipping

  datatype ColBound = ColBound(col: nat, op: Op, rhs: real)

  function TermBounds(t: Term): seq<ColBound> {
    match t
    case Cmp(col, op, rhs) => [ColBound(col, op, rhs)]
    case In(col, _, negated, lo, hi) => if negated then [] else [ColBound(col, Ge, lo), ColBound(col, Le, hi)]
  }

  function Bounds(conj: seq<Term>): seq<ColBound> {
    if conj == [] then [] else TermBounds(conj[0]) + Bounds(conj[1..])
  }

  lemma {:induction false} BoundsSnoc(conj: seq<Term>, t: Term)
    ensures Bounds(conj + [t]) == Bounds(conj) + TermBounds(t)
  {
    if conj == [] {
      assert ([] + [t])[1..] == [];
    } else {
      assert (conj + [t])[1..] == conj[1..] + [t];
      BoundsSnoc(conj[1..], t);
    }
  }

  method CollectBounds(conj: seq<Term>) returns (out: seq<ColBound>)
    ensures out == Bounds(conj)
  {
    out := [];
    for i := 0 to |conj|
      invariant out == Bounds(conj[..i])
    {
      assert conj[..i + 1] == conj[..i] + [conj[i]];
      BoundsSnoc(conj[..i], conj[i]);
      match conj[i]
      case Cmp(col, op, rhs) =>
        out := out + [ColBound(col, op, rhs)];
      case In(col, _, negated, lo, hi) =>
        if !negated {
          out := out + [ColBound(col, Ge, lo), ColBound(col, Le, hi)];
        }
    }
    assert conj[..|conj|] == conj;
  }

  ghost predicate Satisfies(cv: Conversions, row: Row, b: ColBound) {
    Cell(cv, row, b.col).Some? && Test(b.op, Cell(cv, row, b.col).value, b.rhs)
  }

  /** Every bound is a consequence of the filter: a row that matches satisfies them all. */
  lemma {:induction false} BoundsNecessary(cv: Conversions, conj: seq<Term>, row: Row, b: ColBound)
    requires (forall t | t in conj :: Spans(t)) && Matches(cv, conj, row) && b in Bounds(conj)
    ensures Satisfies(cv, row, b)
    decreases |conj|
  {
    if b in TermBounds(conj[0]) {
      assert conj[0] in conj;
    } else {
      BoundsNecessary(cv, conj[1..], row, b);
    }
  }

  lemma {:induction false} BoundsTyped(numeric: seq<bool>, conj: seq<Term>, b: ColBound)
    requires TermsOk(numeric, conj) && b in Bounds(conj)
    ensures b.col < |numeric| && numeric[b.col]
    decreases |conj|
  {
    if b in TermBounds(conj[0]) {
      assert conj[0] in conj;
    } else {
      BoundsTyped(numeric, conj[1..], b);
    }
  }

  /** At 2^53 the two part: floats cannot tell 2^53 + 1 from 2^53, the interpreter can. */
  lemma {:induction false} BeyondExact(cv: Conversions)
    requires Sound(cv) && cv.ofInt(EXACT + 1) == cv.ofInt(EXACT)
    ensures
      var e, row := Compare(Eq, Column(0), Number(Whole(EXACT))), [Int(EXACT + 1)];
      TermMatches(cv, Cmp(0, Eq, NumLit(cv, Number(Whole(EXACT))).value), row) && !Passes(cv, e, row)
    ensures !Settled(cv, Eq, Number(Whole(EXACT)))
  {
    var e, row := Compare(Eq, Column(0), Number(Whole(EXACT))), [Int(EXACT + 1)];
    assert Eval(cv, Column(0), row) == Some(Int(EXACT + 1)) && Eval(cv, Number(Whole(EXACT)), row) == Some(Int(EXACT));
    assert Eval(cv, e, row) == Some(Bool(false));
    var m: i64 := EXACT + 1;
    assert !Apart(cv, Eq, EXACT);
  }
}
