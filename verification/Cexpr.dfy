/**
 * Expressions compiled once, evaluated per row (crates/elyra-engine/src/cexpr.rs,
 * crates/elyra-engine/src/predicate.rs).
 */
module Cexpr {
  import opened Wrappers
  import opened Values

  type Row = seq<Value>

  datatype Error = Error(message: string)

  type Answer = Result<Value, Error>

  datatype Op =
    | And | Or | Spaceship | Eq | NotEq | Lt | LtEq | Gt | GtEq
    | Plus | Minus | Arrow | LongArrow | OtherOp(code: nat)

  /** Expressions as parsed. `Other` stands for every form that has no compiled counterpart. */
  datatype Expr =
    | Literal(text: string)
    | Nested(e: Expr)
    | Identifier(name: string)
    | Compound(parts: seq<string>)
    | Binary(left: Expr, op: Op, right: Expr)
    | Unary(uop: nat, e: Expr)
    | IsNull(e: Expr)
    | IsNotNull(e: Expr)
    | Interval(value: Expr, unit: string)
    | Other(node: nat)

  /** How an unqualified name resolves: whether some stored name matches, and the one visible column it names. */
  datatype Resolution = Resolution(rawHit: bool, found: Result<nat, Error>)

  /** What the evaluator takes from its surroundings: the schema's name resolution, and the operations on values. */
  datatype Env = Env(
    literal: string -> Answer,
    systemVar: string -> Value,
    bare: string -> Resolution,
    niladic: string -> Option<Value>,
    qualified: seq<string> -> Result<nat, Error>,
    collation: (Expr, Expr) -> Collation,
    compare: (Value, Value, Collation) -> Result<Option<int>, Error>,
    apply: (Op, Value, Value) -> Answer,
    unary: (nat, Value) -> Answer,
    jsonPath: (Value, Expr, Row, bool) -> Answer,
    interval: (Value, Value, string, bool) -> Answer,
    other: (nat, Row) -> Answer,
    truthy: Value -> bool)

  predicate IsSystem(name: string) {
    "@@" <= name
  }

  function ColumnAt(row: Row, i: nat): Value {
    if i < |row| then row[i] else Null
  }

  // ----------------------------------------------------------------- binary operators

  function Bool3(env: Env, v: Value): Option<bool> {
    if v.Null? then None else Some(env.truthy(v))
  }

  predicate IsComparison(op: Op) {
    op == Eq || op == NotEq || op == Lt || op == LtEq || op == Gt || op == GtEq
  }

  /** What an ordering means for a comparison; incomparable values are only unequal. */
  function Holds(op: Op, o: Option<int>): bool {
    match op
    case Eq => o.Some? && o.value == 0
    case NotEq => o.None? || o.value != 0
    case Lt => o.Some? && o.value < 0
    case LtEq => o.Some? && o.value <= 0
    case Gt => o.Some? && o.value > 0
    case GtEq => o.Some? && o.value >= 0
    case _ => false
  }

  /** `right` is what evaluating the right operand gives; it is looked at only when it is needed. */
  function BinaryValue(env: Env, l: Value, op: Op, right: Answer, collation: Collation): Answer {
    if op == And && Bool3(env, l) == Some(false) then Ok(Bool(false))
    else if op == Or && Bool3(env, l) == Some(true) then Ok(Bool(true))
    else
      var r :- right;
      match op
      case And =>
        (match (Bool3(env, l), Bool3(env, r))
         case (_, Some(false)) => Ok(Bool(false))
         case (Some(true), Some(true)) => Ok(Bool(true))
         case _ => Ok(Null))
      case Or =>
        (match (Bool3(env, l), Bool3(env, r))
         case (_, Some(true)) => Ok(Bool(true))
         case (Some(false), Some(false)) => Ok(Bool(false))
         case _ => Ok(Null))
      case Spaceship =>
        if l.Null? && r.Null? then Ok(Bool(true))
        else if l.Null? || r.Null? then Ok(Bool(false))
        else
          var o :- env.compare(l, r, collation);
          Ok(Bool(o.Some? && o.value == 0))
      case _ =>
        if IsComparison(op) then
          if l.Null? || r.Null? then Ok(Null)
          else
            var o :- env.compare(l, r, collation);
            Ok(Bool(Holds(op, o)))
        else env.apply(op, l, r)
  }

  predicate IsTrue(env: Env, v: Value) {
    v != Null && env.truthy(v)
  }

  predicate IsFalse(env: Env, v: Value) {
    v != Null && !env.truthy(v)
  }

  /**
   * Kleene's logic, with NULL for unknown: AND is true if both operands are, false if either is, and else NULL; OR is
   * true if either is, false if both are, and else NULL.
   */
  lemma {:induction false} LogicIsKleene(env: Env, l: Value, r: Value, collation: Collation)
    ensures BinaryValue(env, l, And, Ok(r), collation) ==
            Ok(if IsTrue(env, l) && IsTrue(env, r) then Bool(true)
               else if IsFalse(env, l) || IsFalse(env, r) then Bool(false) else Null)
    ensures BinaryValue(env, l, Or, Ok(r), collation) ==
            Ok(if IsTrue(env, l) || IsTrue(env, r) then Bool(true)
               else if IsFalse(env, l) && IsFalse(env, r) then Bool(false) else Null)
  {
  }

  // ------------------------------------------------------------------- the interpreter

  function Eval(env: Env, e: Expr, row: Row): Answer {
    match e
    case Literal(text) => env.literal(text)
    case Nested(x) => Eval(env, x, row)
    case Identifier(name) =>
      if IsSystem(name) then Ok(env.systemVar(name))
      else
        var res := env.bare(name);
        if !res.rawHit && env.niladic(name).Some? then Ok(env.niladic(name).value)
        else
          var i :- res.found;
          Ok(ColumnAt(row, i))
    case Compound(parts) =>
      if parts != [] && IsSystem(parts[0]) then Ok(env.systemVar(parts[|parts| - 1]))
      else
        var i :- env.qualified(parts);
        Ok(ColumnAt(row, i))
    case Binary(l, op, r) =>
      if op == Arrow || op == LongArrow then
        var v :- Eval(env, l, row);
        env.jsonPath(v, r, row, op == LongArrow)
      else if (op == Plus || op == Minus) && r.Interval? then
        var base :- Eval(env, l, row);
        var n :- Eval(env, r.value, row);
        env.interval(base, n, r.unit, op == Minus)
      else if op == Plus && l.Interval? then
        var base :- Eval(env, r, row);
        var n :- Eval(env, l.value, row);
        env.interval(base, n, l.unit, false)
      else
        var v :- Eval(env, l, row);
        BinaryValue(env, v, op, Eval(env, r, row), env.collation(l, r))
    case Unary(op, x) =>
      var v :- Eval(env, x, row);
      env.unary(op, v)
    case IsNull(x) =>
      var v :- Eval(env, x, row);
      Ok(Bool(v.Null?))
    case IsNotNull(x) =>
      var v :- Eval(env, x, row);
      Ok(Bool(!v.Null?))
    case Interval(_, _) => Err(Error("interval out of place"))
    case Other(node) => env.other(node, row)
  }

  // ---------------------------------------------------------------------- the compiler

  datatype CExpr =
    | Col(i: nat)
    | Lit(v: Value)
    | CBinary(op: Op, left: CExpr, right: CExpr, collation: Collation)
    | CUnary(uop: nat, operand: CExpr)
    | CIsNull(operand: CExpr, negated: bool)
    | Ast(e: Expr)

  /** The column a bare word names, unless it is a function name no column takes. */
  function BareColumn(env: Env, name: string): Option<nat> {
    var res := env.bare(name);
    if !res.rawHit && env.niladic(name).Some? then None
    else if res.found.Ok? then Some(res.found.value) else None
  }

  predicate Compilable(op: Op, left: Expr, right: Expr) {
    !(op == Arrow || op == LongArrow) && !((op == Plus || op == Minus) && (right.Interval? || left.Interval?))
  }

  function Compile(env: Env, e: Expr): CExpr {
    match e
    case Nested(x) => Compile(env, x)
    case Literal(text) => if env.literal(text).Ok? then Lit(env.literal(text).value) else Ast(e)
    case Identifier(name) =>
      if IsSystem(name) then Ast(e)
      else if BareColumn(env, name).Some? then Col(BareColumn(env, name).value) else Ast(e)
    case Compound(parts) =>
      if parts != [] && IsSystem(parts[0]) then Ast(e)
      else if env.qualified(parts).Ok? then Col(env.qualified(parts).value) else Ast(e)
    case Binary(l, op, r) =>
      if Compilable(op, l, r) then CBinary(op, Compile(env, l), Compile(env, r), env.collation(l, r)) else Ast(e)
    case Unary(op, x) => CUnary(op, Compile(env, x))
    case IsNull(x) => CIsNull(Compile(env, x), false)
    case IsNotNull(x) => CIsNull(Compile(env, x), true)
    case _ => Ast(e)
  }

  function EvalCompiled(env: Env, c: CExpr, row: Row): Answer {
    match c
    case Col(i) => Ok(ColumnAt(row, i))
    case Lit(v) => Ok(v)
    case CBinary(op, l, r, collation) =>
      var v :- EvalCompiled(env, l, row);
      BinaryValue(env, v, op, EvalCompiled(env, r, row), collation)
    case CUnary(op, x) =>
      var v :- EvalCompiled(env, x, row);
      env.unary(op, v)
    case CIsNull(x, negated) =>
      var v :- EvalCompiled(env, x, row);
      Ok(Bool(v.Null? != negated))
    case Ast(e) => Eval(env, e, row)
  }

  /** A compiled expression gives what the interpreter gives on every row, value for value and error for error. */
  lemma {:induction false} CompileKeepsMeaning(env: Env, e: Expr, row: Row)
    ensures EvalCompiled(env, Compile(env, e), row) == Eval(env, e, row)
  {
    match e
    case Nested(x) => CompileKeepsMeaning(env, x, row);
    case Binary(l, op, r) =>
      CompileKeepsMeaning(env, l, row);
      CompileKeepsMeaning(env, r, row);
    case Unary(_, x) => CompileKeepsMeaning(env, x, row);
    case IsNull(x) => CompileKeepsMeaning(env, x, row);
    case IsNotNull(x) => CompileKeepsMeaning(env, x, row);
    case _ =>
  }

  // ------------------------------------------------------------------ what comparisons mean

  /** `o` is the sign of `a - b`. */
  predicate SignOf(o: int, a: int, b: int) {
    (o < 0 <==> a < b) && (o == 0 <==> a == b)
  }

  /** Both ways of evaluating give `answer`. */
  ghost predicate Gives(env: Env, e: Expr, row: Row, answer: Answer) {
    Eval(env, e, row) == answer && EvalCompiled(env, Compile(env, e), row) == answer
  }

  /** The operands evaluate to these values. */
  ghost predicate Operated(env: Env, l: Expr, r: Expr, row: Row, x: Value, y: Value) {
    Eval(env, l, row) == Ok(x) && Eval(env, r, row) == Ok(y)
  }

  /** What the operators say of numbers. */
  ghost predicate Relates(op: Op, a: int, b: int) {
    || (op in {Eq, LtEq, GtEq, Spaceship} && a == b)
    || (op in {NotEq, Lt, LtEq} && a < b)
    || (op in {NotEq, Gt, GtEq} && a > b)
  }

  /** Where values compare as numbers do, the operators are those of numbers, interpreted and compiled. */
  lemma {:induction false} ComparisonsMean(env: Env, l: Expr, r: Expr, row: Row, x: Value, y: Value, o: int, a: int,
                                           b: int, op: Op)
    requires Operated(env, l, r, row, x, y) && !x.Null? && !y.Null?
    requires env.compare(x, y, env.collation(l, r)) == Ok(Some(o)) && SignOf(o, a, b)
    requires op in {Eq, NotEq, Lt, LtEq, Gt, GtEq, Spaceship}
    ensures Gives(env, Binary(l, op, r), row, Ok(Bool(Relates(op, a, b))))
  {
    CompileKeepsMeaning(env, Binary(l, op, r), row);
  }

  /** Values that do not compare are unequal and nothing else. */
  lemma {:induction false} IncomparableMean(env: Env, l: Expr, r: Expr, row: Row, x: Value, y: Value, op: Op)
    requires Operated(env, l, r, row, x, y) && !x.Null? && !y.Null?
    requires env.compare(x, y, env.collation(l, r)) == Ok(None)
    requires op in {Eq, NotEq, Lt, LtEq, Gt, GtEq, Spaceship}
    ensures Gives(env, Binary(l, op, r), row, Ok(Bool(op == NotEq)))
  {
    CompileKeepsMeaning(env, Binary(l, op, r), row);
  }

  /** With a NULL operand a comparison is NULL, save that `<=>` tells whether both are. */
  lemma {:induction false} NullsMean(env: Env, l: Expr, r: Expr, row: Row, x: Value, y: Value, op: Op)
    requires Operated(env, l, r, row, x, y) && (x.Null? || y.Null?)
    ensures op in {Eq, NotEq, Lt, LtEq, Gt, GtEq} ==> Gives(env, Binary(l, op, r), row, Ok(Null))
    ensures op == Spaceship ==> Gives(env, Binary(l, op, r), row, Ok(Bool(x == y)))
  {
    CompileKeepsMeaning(env, Binary(l, op, r), row);
  }

  /** IS NULL tells whether the operand is NULL, IS NOT NULL whether it is not, and neither is ever NULL. */
  lemma {:induction false} NullTests(env: Env, e: Expr, row: Row, v: Value)
    requires Eval(env, e, row) == Ok(v)
    ensures Gives(env, IsNull(e), row, Ok(Bool(v == Null))) && Gives(env, IsNotNull(e), row, Ok(Bool(v != Null)))
  {
    CompileKeepsMeaning(env, IsNull(e), row);
    CompileKeepsMeaning(env, IsNotNull(e), row);
  }

  /** A name that resolves to column `i` is the row's cell there, or NULL in a row too short to have it. */
  lemma {:induction false} NamesMean(env: Env, name: string, row: Row, i: nat)
    requires !("@@" <= name) && env.bare(name).found == Ok(i)
    requires env.bare(name).rawHit || env.niladic(name).None?
    ensures Gives(env, Identifier(name), row, Ok(if i < |row| then row[i] else Null))
  {
    CompileKeepsMeaning(env, Identifier(name), row);
  }

  /** An error of the right operand shows, save where the left one settles an AND or an OR. */
  lemma {:induction false} RightErrorShows(env: Env, l: Expr, op: Op, r: Expr, row: Row, x: Value, err: Error)
    requires Eval(env, l, row) == Ok(x) && Eval(env, r, row) == Err(err)
    requires op !in {Arrow, LongArrow} && !l.Interval? && !r.Interval?
    ensures Gives(env, Binary(l, op, r), row,
                  if op == And && IsFalse(env, x) then Ok(Bool(false))
                  else if op == Or && IsTrue(env, x) then Ok(Bool(true)) else Err(err))
    ensures r in Operands(env, Binary(l, op, r), row) <==> Eval(env, Binary(l, op, r), row).Err? || l == r
  {
    CompileKeepsMeaning(env, Binary(l, op, r), row);
  }

  /** Adding an interval, on either side, or taking one off. */
  lemma {:induction false} IntervalsMean(env: Env, l: Expr, n: Expr, unit: string, row: Row, x: Value, y: Value)
    requires Operated(env, l, n, row, x, y)
    ensures Gives(env, Binary(l, Plus, Interval(n, unit)), row, env.interval(x, y, unit, false))
    ensures !l.Interval? ==> Gives(env, Binary(Interval(n, unit), Plus, l), row, env.interval(x, y, unit, false))
    ensures Gives(env, Binary(l, Minus, Interval(n, unit)), row, env.interval(x, y, unit, true))
  {
    CompileKeepsMeaning(env, Binary(l, Plus, Interval(n, unit)), row);
    CompileKeepsMeaning(env, Binary(Interval(n, unit), Plus, l), row);
    CompileKeepsMeaning(env, Binary(l, Minus, Interval(n, unit)), row);
  }

  /** One arrow reads a JSON path, two take the quotes off what it finds. */
  lemma {:induction false} ArrowsMean(env: Env, l: Expr, path: Expr, row: Row, x: Value)
    requires Eval(env, l, row) == Ok(x)
    ensures Gives(env, Binary(l, Arrow, path), row, env.jsonPath(x, path, row, false))
    ensures Gives(env, Binary(l, LongArrow, path), row, env.jsonPath(x, path, row, true))
  {
    CompileKeepsMeaning(env, Binary(l, Arrow, path), row);
    CompileKeepsMeaning(env, Binary(l, LongArrow, path), row);
  }

  /** A name that starts with two at signs is a system variable, whatever the columns are called. */
  lemma {:induction false} SystemNamesMean(env: Env, name: string, rest: seq<string>, row: Row)
    ensures Gives(env, Identifier("@@" + name), row, Ok(env.systemVar("@@" + name)))
    ensures rest != [] ==>
              Gives(env, Compound(["@@" + name] + rest), row, Ok(env.systemVar(rest[|rest| - 1])))
  {
    CompileKeepsMeaning(env, Identifier("@@" + name), row);
    var parts := ["@@" + name] + rest;
    assert parts[0] == "@@" + name && "@@" <= parts[0] && (rest != [] ==> parts[|parts| - 1] == rest[|rest| - 1]);
    CompileKeepsMeaning(env, Compound(parts), row);
  }

  // -------------------------------------------------------------------- what is compiled

  /** Nothing is left to the interpreter. */
  ghost predicate Whole(c: CExpr) {
    match c
    case CBinary(_, l, r, _) => Whole(l) && Whole(r)
    case CUnary(_, x) => Whole(x)
    case CIsNull(x, _) => Whole(x)
    case Ast(_) => false
    case _ => true
  }

  /** Made of literals, columns, unary and binary operators and tests for NULL; not JSON paths or intervals. */
  ghost predicate Plain(env: Env, e: Expr) {
    match e
    case Literal(text) => env.literal(text).Ok?
    case Nested(x) => Plain(env, x)
    case Identifier(name) =>
      !("@@" <= name) && env.bare(name).found.Ok? && (env.bare(name).rawHit || env.niladic(name).None?)
    case Compound(parts) => !(parts != [] && "@@" <= parts[0]) && env.qualified(parts).Ok?
    case Binary(l, op, r) => op !in {Arrow, LongArrow} && Plain(env, l) && Plain(env, r)
    case Unary(_, x) => Plain(env, x)
    case IsNull(x) => Plain(env, x)
    case IsNotNull(x) => Plain(env, x)
    case _ => false
  }

  /** Exactly such expressions are compiled whole. */
  lemma {:induction false} CompiledWholeIff(env: Env, e: Expr)
    ensures Whole(Compile(env, e)) <==> Plain(env, e)
  {
    match e
    case Nested(x) => CompiledWholeIff(env, x);
    case Binary(l, _, r) =>
      CompiledWholeIff(env, l);
      CompiledWholeIff(env, r);
    case Unary(_, x) => CompiledWholeIff(env, x);
    case IsNull(x) => CompiledWholeIff(env, x);
    case IsNotNull(x) => CompiledWholeIff(env, x);
    case _ =>
  }

  /** As a WHERE clause: NULL is false. */
  function Matches(env: Env, e: Expr, row: Row): Result<bool, Error> {
    var v :- Eval(env, e, row);
    Ok(env.truthy(v))
  }

  function MatchesCompiled(env: Env, c: CExpr, row: Row): Result<bool, Error> {
    var v :- EvalCompiled(env, c, row);
    Ok(env.truthy(v))
  }

  // ---------------------------------------------------------------- where errors come from

  function Size(e: Expr): nat {
    match e
    case Nested(x) => 1 + Size(x)
    case Binary(l, _, r) => 1 + Size(l) + Size(r)
    case Unary(_, x) => 1 + Size(x)
    case IsNull(x) => 1 + Size(x)
    case IsNotNull(x) => 1 + Size(x)
    case Interval(x, _) => 1 + Size(x)
    case _ => 1
  }

  /** The left operand of AND or OR settles the result. */
  predicate Decides(env: Env, op: Op, l: Value) {
    (op == And && Bool3(env, l) == Some(false)) || (op == Or && Bool3(env, l) == Some(true))
  }

  /** The operands evaluation gets to on this row, in order. */
  ghost function Operands(env: Env, e: Expr, row: Row): (xs: seq<Expr>)
    ensures forall x | x in xs :: Size(x) < Size(e)
  {
    match e
    case Nested(x) => [x]
    case Unary(_, x) => [x]
    case IsNull(x) => [x]
    case IsNotNull(x) => [x]
    case Binary(l, op, r) =>
      if op == Arrow || op == LongArrow then [l]
      else if (op == Plus || op == Minus) && r.Interval? then if Eval(env, l, row).Ok? then [l, r.value] else [l]
      else if op == Plus && l.Interval? then if Eval(env, r, row).Ok? then [r, l.value] else [r]
      else if Eval(env, l, row).Ok? && !Decides(env, op, Eval(env, l, row).value) then [l, r] else [l]
    case _ => []
  }

  /** Evaluating `e` on this row evaluates `d`. */
  ghost predicate Demanded(env: Env, e: Expr, row: Row, d: Expr)
    decreases Size(e)
  {
    d == e || exists x | x in Operands(env, e, row) :: Demanded(env, x, row, d)
  }

  /** The node itself fails: its operands do not. */
  ghost predicate Raises(env: Env, d: Expr, row: Row, err: Error) {
    Eval(env, d, row) == Err(err) && forall x | x in Operands(env, d, row) :: Eval(env, x, row).Ok?
  }

  lemma {:induction false} OperandErrs(env: Env, e: Expr, row: Row, x: Expr, err: Error)
    requires x in Operands(env, e, row) && Eval(env, x, row) == Err(err)
    ensures Eval(env, e, row) == Err(err)
  {
  }

  lemma {:induction false} DemandedErrs(env: Env, e: Expr, row: Row, d: Expr, err: Error)
    requires Demanded(env, e, row, d) && Eval(env, d, row) == Err(err)
    ensures Eval(env, e, row) == Err(err)
    decreases Size(e)
  {
    if d != e {
      var x :| x in Operands(env, e, row) && Demanded(env, x, row, d);
      DemandedErrs(env, x, row, d, err);
      OperandErrs(env, e, row, x, err);
    }
  }

  lemma {:induction false} ErrorRaised(env: Env, e: Expr, row: Row, err: Error) returns (d: Expr)
    requires Eval(env, e, row) == Err(err)
    ensures Demanded(env, e, row, d) && Raises(env, d, row, err)
    decreases Size(e)
  {
    if x :| x in Operands(env, e, row) && Eval(env, x, row).Err? {
      OperandErrs(env, e, row, x, Eval(env, x, row).error);
      d := ErrorRaised(env, x, row, err);
    } else {
      d := e;
    }
  }

  /**
   * An expression fails with an error, interpreted or compiled, exactly when some node that evaluation gets to raises
   * it: an operand that AND or OR does not need never shows, every other does.
   */
  lemma {:induction false} ErrorShowsIff(env: Env, e: Expr, row: Row, err: Error)
    ensures Eval(env, e, row) == Err(err) <==> exists d :: Demanded(env, e, row, d) && Raises(env, d, row, err)
    ensures EvalCompiled(env, Compile(env, e), row) == Err(err)
       <==> exists d :: Demanded(env, e, row, d) && Raises(env, d, row, err)
  {
    CompileKeepsMeaning(env, e, row);
    if Eval(env, e, row) == Err(err) {
      var d := ErrorRaised(env, e, row, err);
    }
    if d :| Demanded(env, e, row, d) && Raises(env, d, row, err) {
      DemandedErrs(env, e, row, d, err);
    }
  }
}
