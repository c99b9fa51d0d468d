/** Removing parenthesised joins from a FROM clause (crates/elyra-engine/src/nestjoin.rs). */
module NestJoin {
  import opened Wrappers

  type Col = string

  /** ON conditions: opaque atoms that read a fixed set of columns, parentheses and AND. */
  datatype Expr =
    | Atom(id: nat, cols: set<Col>)
    | Paren(inner: Expr)
    | And(left: Expr, right: Expr)

  datatype Constraint = On(cond: Expr) | Using(names: seq<Col>) | Natural | NoConstraint

  /** `Outer` stands for every operator the rewriting does not look into. */
  datatype JoinOperator = Inner(constraint: Constraint) | CrossJoin | Outer(kind: nat, constraint: Constraint)

  datatype TableFactor =
    | Table(name: nat)
    | NestedJoin(tables: TableWithJoins, alias: Option<string>)

  datatype Join = Join(relation: TableFactor, global: bool, op: JoinOperator)

  datatype TableWithJoins = TableWithJoins(relation: TableFactor, joins: seq<Join>)

  // ---------------------------------------------------------------- rewriting

  /** The join list inside an unaliased pair of parentheses. */
  function Nested(factor: TableFactor): (r: Option<TableWithJoins>)
    ensures r.Some? ==> FactorSize(factor) == 1 + Size(r.value)
  {
    match factor
    case NestedJoin(tables, None) => Some(tables)
    case _ => None
  }

  predicate IsInner(op: JoinOperator) {
    op.CrossJoin? || (op.Inner? && op.constraint.On?)
  }

  predicate AllInner(joins: seq<Join>) {
    forall j | j in joins :: IsInner(j.op)
  }

  function Conjoin(left: Expr, right: Expr): Expr {
    And(Paren(left), Paren(right))
  }

  /** The operator of a moved list's last join once the outer condition is attached to it. */
  function Attach(op: JoinOperator, on: Expr): JoinOperator {
    if op.Inner? && op.constraint.On? then Inner(On(Conjoin(op.constraint.cond, on))) else Inner(On(on))
  }

  /** Number of factors, parentheses included: what bounds the recursion. */
  function FactorSize(f: TableFactor): (n: nat)
    ensures n > 0
    decreases f
  {
    match f
    case Table(_) => 1
    case NestedJoin(t, _) => 1 + Size(t)
  }

  function JoinSize(j: Join): (n: nat)
    ensures n > 0
    decreases j
  {
    FactorSize(j.relation)
  }

  function JoinsSize(joins: seq<Join>): nat
    decreases joins
  {
    if joins == [] then 0 else JoinSize(joins[0]) + JoinsSize(joins[1..])
  }

  function Size(t: TableWithJoins): nat
    decreases t
  {
    FactorSize(t.relation) + JoinsSize(t.joins)
  }

  lemma {:induction false} OneSize(j: Join)
    ensures JoinsSize([j]) == JoinSize(j)
  {
    assert [j][1..] == [];
  }

  lemma {:induction false} JoinsSizeAppend(a: seq<Join>, b: seq<Join>)
    ensures JoinsSize(a + b) == JoinsSize(a) + JoinsSize(b)
  {
    if a == [] {
      assert a + b == b;
    } else {
      assert (a + b)[1..] == a[1..] + b;
      JoinsSizeAppend(a[1..], b);
    }
  }

  /** The list with the outer condition attached to its last join. */
  function AttachLast(joins: seq<Join>, on: Expr): (r: seq<Join>)
    requires joins != []
    ensures JoinsSize(r) == JoinsSize(joins)
  {
    var n := |joins| - 1;
    var moved := joins[n].(op := Attach(joins[n].op, on));
    OneSize(moved);
    OneSize(joins[n]);
    JoinsSizeAppend(joins[..n], [moved]);
    JoinsSizeAppend(joins[..n], [joins[n]]);
    assert joins == joins[..n] + [joins[n]];
    joins[..n] + [moved]
  }

  /** What one join of the list becomes. */
  function FlattenJoin(join: Join): (r: seq<Join>)
    ensures JoinsSize(r) <= JoinSize(join)
    decreases JoinSize(join), 0
  {
    match Nested(join.relation)
    case None => OneSize(join); [join]
    case Some(tables) =>
      var inner := Flattened(tables);
      if inner.joins == [] then
        OneSize(Join(inner.relation, join.global, join.op));
        [Join(inner.relation, join.global, join.op)]
      else if !IsInner(join.op) || !AllInner(inner.joins) then
        OneSize(join);
        [join]
      else
        var first := Join(inner.relation, false, CrossJoin);
        OneSize(first);
        JoinsSizeAppend([first], inner.joins);
        if join.op.CrossJoin? then [first] + inner.joins
        else AttachLast([first] + inner.joins, join.op.constraint.cond)
  }

  function FlattenJoins(joins: seq<Join>): (r: seq<Join>)
    ensures JoinsSize(r) <= JoinsSize(joins)
    decreases JoinsSize(joins), |joins|, 1
  {
    if joins == [] then [] else
    var head := FlattenJoin(joins[0]);
    var tail := FlattenJoins(joins[1..]);
    JoinsSizeAppend(head, tail);
    head + tail
  }

  /** Parentheses taken off the left end of the list. */
  function Unwrapped(t: TableWithJoins): (r: TableWithJoins)
    ensures Size(r) <= Size(t)
    decreases Size(t), 0, 1
  {
    match Nested(t.relation)
    case None => t
    case Some(tables) =>
      var inner := Flattened(tables);
      JoinsSizeAppend(inner.joins, t.joins);
      TableWithJoins(inner.relation, inner.joins + t.joins)
  }

  /** The whole rewriting of one FROM item, as a value. */
  function Flattened(t: TableWithJoins): (r: TableWithJoins)
    ensures Size(r) <= Size(t)
    decreases Size(t), 0, 2
  {
    var u := Unwrapped(t);
    TableWithJoins(u.relation, FlattenJoins(u.joins))
  }

  // ------------------------------------------------------------------ meaning

  /** A row maps its (unique, qualified) column names to cells. */
  type Row = map<Col, int>

  datatype RawRelation = Relation(header: seq<Col>, rows: seq<Row>) {
    ghost function Cols(): set<Col> { set c | c in header }
    ghost predicate WellFormed() { forall row | row in rows :: row.Keys == Cols() }
  }

  type Relation = r: RawRelation | r.WellFormed() witness Relation([], [])

  /** What the rewriting may not depend on: stored tables, aliasing, conditions and outer joins. */
  datatype Meaning = Meaning(
    table: nat -> Relation,
    renamed: (string, Relation) -> Relation,
    atom: (nat, Row) -> Option<bool>,
    outer: (JoinOperator, Relation, Relation) -> Relation)

  ghost function Restrict(row: Row, cols: set<Col>): Row {
    map c | c in row && c in cols :: row[c]
  }

  /** Three-valued truth of a condition; an atom sees only the columns it reads. */
  ghost function Truth(m: Meaning, e: Expr, row: Row): Option<bool> {
    match e
    case Atom(id, cols) => m.atom(id, Restrict(row, cols))
    case Paren(inner) => Truth(m, inner, row)
    case And(l, r) =>
      if Truth(m, l, row) == Some(false) then Some(false) else
      match (Truth(m, l, row), Truth(m, r, row))
      case (_, Some(false)) => Some(false)
      case (Some(true), Some(true)) => Some(true)
      case _ => None
  }

  ghost function Reads(e: Expr): set<Col> {
    match e
    case Atom(_, cols) => cols
    case Paren(inner) => Reads(inner)
    case And(l, r) => Reads(l) + Reads(r)
  }

  ghost function Pair(left: Row, rows: seq<Row>): seq<Row> {
    if rows == [] then [] else [left + rows[0]] + Pair(left, rows[1..])
  }

  /** Left-major product of two row sequences. */
  ghost function CrossRows(left: seq<Row>, right: seq<Row>): seq<Row> {
    if left == [] then [] else Pair(left[0], right) + CrossRows(left[1..], right)
  }

  ghost function Selected(m: Meaning, e: Expr, rows: seq<Row>): (r: seq<Row>)
    ensures forall row | row in r :: row in rows
  {
    if rows == [] then []
    else (if Truth(m, e, rows[0]) == Some(true) then [rows[0]] else []) + Selected(m, e, rows[1..])
  }

  lemma {:induction false} PairKeys(left: Row, rows: seq<Row>, cols: set<Col>)
    requires forall r | r in rows :: r.Keys == cols
    ensures forall r | r in Pair(left, rows) :: r.Keys == left.Keys + cols
  {
    if rows != [] {
      PairKeys(left, rows[1..], cols);
    }
  }

  lemma {:induction false} CrossKeys(left: seq<Row>, right: seq<Row>, lcols: set<Col>, rcols: set<Col>)
    requires forall r | r in left :: r.Keys == lcols
    requires forall r | r in right :: r.Keys == rcols
    ensures forall r | r in CrossRows(left, right) :: r.Keys == lcols + rcols
  {
    if left != [] {
      PairKeys(left[0], right, rcols);
      CrossKeys(left[1..], right, lcols, rcols);
    }
  }

  ghost function Product(l: Relation, r: Relation): (p: Relation)
    ensures p.Cols() == l.Cols() + r.Cols()
  {
    CrossKeys(l.rows, r.rows, l.Cols(), r.Cols());
    var p := Relation(l.header + r.header, CrossRows(l.rows, r.rows));
    assert p.Cols() == l.Cols() + r.Cols();
    p
  }

  ghost function Where(m: Meaning, e: Expr, r: Relation): (w: Relation)
    ensures w.Cols() == r.Cols()
  {
    var w := Relation(r.header, Selected(m, e, r.rows));
    assert w.Cols() == r.Cols();
    w
  }

  ghost function Apply(m: Meaning, op: JoinOperator, l: Relation, r: Relation): Relation {
    if op.CrossJoin? then Product(l, r)
    else if op.Inner? && op.constraint.On? then Where(m, op.constraint.cond, Product(l, r))
    else m.outer(op, l, r)
  }

  ghost function EvalFactor(m: Meaning, f: TableFactor): Relation
    decreases f
  {
    match f
    case Table(name) => m.table(name)
    case NestedJoin(t, None) => Eval(m, t)
    case NestedJoin(t, Some(alias)) => m.renamed(alias, Eval(m, t))
  }

  ghost function EvalJoin(m: Meaning, acc: Relation, join: Join): Relation
    decreases join
  {
    Apply(m, join.op, acc, EvalFactor(m, join.relation))
  }

  /** Joins are evaluated left to right. */
  ghost function EvalJoins(m: Meaning, acc: Relation, joins: seq<Join>): Relation
    decreases joins
  {
    if joins == [] then acc else EvalJoins(m, EvalJoin(m, acc, joins[0]), joins[1..])
  }

  ghost function Eval(m: Meaning, t: TableWithJoins): Relation
    decreases t
  {
    EvalJoins(m, EvalFactor(m, t.relation), t.joins)
  }

  // Every inner ON condition reads only columns of its own two operands.

  ghost predicate ScopedOp(op: JoinOperator, l: Relation, r: Relation) {
    op.Inner? && op.constraint.On? ==> Reads(op.constraint.cond) <= l.Cols() + r.Cols()
  }

  ghost predicate ScopedFactor(m: Meaning, f: TableFactor)
    decreases f
  {
    match f
    case NestedJoin(t, None) => Scoped(m, t)
    case _ => true
  }

  ghost predicate ScopedJoin(m: Meaning, acc: Relation, join: Join)
    decreases join
  {
    ScopedFactor(m, join.relation) && ScopedOp(join.op, acc, EvalFactor(m, join.relation))
  }

  ghost predicate ScopedJoins(m: Meaning, acc: Relation, joins: seq<Join>)
    decreases joins
  {
    joins == [] || (ScopedJoin(m, acc, joins[0]) && ScopedJoins(m, EvalJoin(m, acc, joins[0]), joins[1..]))
  }

  ghost predicate Scoped(m: Meaning, t: TableWithJoins)
    decreases t
  {
    ScopedFactor(m, t.relation) && ScopedJoins(m, EvalFactor(m, t.relation), t.joins)
  }

  // ------------------------------------------------- algebra of rows and joins

  lemma {:induction false} CrossAppend(a: seq<Row>, b: seq<Row>, c: seq<Row>)
    ensures CrossRows(a + b, c) == CrossRows(a, c) + CrossRows(b, c)
  {
    if a == [] {
      assert a + b == b;
    } else {
      assert (a + b)[1..] == a[1..] + b;
      CrossAppend(a[1..], b, c);
    }
  }

  lemma {:induction false} PairAppend(l: Row, a: seq<Row>, b: seq<Row>)
    ensures Pair(l, a + b) == Pair(l, a) + Pair(l, b)
  {
    if a == [] {
      assert a + b == b;
    } else {
      assert (a + b)[1..] == a[1..] + b;
      PairAppend(l, a[1..], b);
    }
  }

  lemma {:induction false} PairPair(l: Row, a: Row, c: seq<Row>)
    ensures Pair(l, Pair(a, c)) == Pair(l + a, c)
  {
    if c != [] {
      assert l + (a + c[0]) == (l + a) + c[0];
      PairPair(l, a, c[1..]);
    }
  }

  lemma {:induction false} PairCross(l: Row, a: seq<Row>, c: seq<Row>)
    ensures Pair(l, CrossRows(a, c)) == CrossRows(Pair(l, a), c)
  {
    if a != [] {
      PairCross(l, a[1..], c);
      PairPair(l, a[0], c);
      PairAppend(l, Pair(a[0], c), CrossRows(a[1..], c));
    }
  }

  lemma {:induction false} CrossAssociative(l: seq<Row>, a: seq<Row>, c: seq<Row>)
    ensures CrossRows(l, CrossRows(a, c)) == CrossRows(CrossRows(l, a), c)
  {
    if l != [] {
      CrossAssociative(l[1..], a, c);
      PairCross(l[0], a, c);
      CrossAppend(Pair(l[0], a), CrossRows(l[1..], a), c);
    }
  }

  lemma {:induction false} SelectedAppend(m: Meaning, e: Expr, a: seq<Row>, b: seq<Row>)
    ensures Selected(m, e, a + b) == Selected(m, e, a) + Selected(m, e, b)
  {
    if a == [] {
      assert a + b == b;
    } else {
      assert (a + b)[1..] == a[1..] + b;
      SelectedAppend(m, e, a[1..], b);
    }
  }

  /** A condition does not see columns it does not read. */
  lemma {:induction false} TruthIgnoresLeft(m: Meaning, e: Expr, l: Row, r: Row)
    requires Reads(e) <= r.Keys
    ensures Truth(m, e, l + r) == Truth(m, e, r)
  {
    match e
    case Atom(_, cols) => assert Restrict(l + r, cols) == Restrict(r, cols);
    case Paren(inner) => TruthIgnoresLeft(m, inner, l, r);
    case And(a, b) =>
      TruthIgnoresLeft(m, a, l, r);
      TruthIgnoresLeft(m, b, l, r);
  }

  lemma {:induction false} PairSelected(m: Meaning, e: Expr, l: Row, rows: seq<Row>)
    requires forall r | r in rows :: Reads(e) <= r.Keys
    ensures Pair(l, Selected(m, e, rows)) == Selected(m, e, Pair(l, rows))
  {
    if rows != [] {
      PairSelected(m, e, l, rows[1..]);
      TruthIgnoresLeft(m, e, l, rows[0]);
      PairAppend(l, if Truth(m, e, rows[0]) == Some(true) then [rows[0]] else [], Selected(m, e, rows[1..]));
    }
  }

  /** A condition on the right operand alone can be applied after the product. */
  lemma {:induction false} CrossSelected(m: Meaning, e: Expr, left: seq<Row>, right: seq<Row>)
    requires forall r | r in right :: Reads(e) <= r.Keys
    ensures CrossRows(left, Selected(m, e, right)) == Selected(m, e, CrossRows(left, right))
  {
    if left != [] {
      CrossSelected(m, e, left[1..], right);
      PairSelected(m, e, left[0], right);
      SelectedAppend(m, e, Pair(left[0], right), CrossRows(left[1..], right));
    }
  }

  /** AND selects what both conditions select, NULL included. */
  lemma {:induction false} SelectedTwice(m: Meaning, a: Expr, b: Expr, rows: seq<Row>)
    ensures Selected(m, b, Selected(m, a, rows)) == Selected(m, Conjoin(a, b), rows)
  {
    if rows != [] {
      SelectedTwice(m, a, b, rows[1..]);
      var head := if Truth(m, a, rows[0]) == Some(true) then [rows[0]] else [];
      SelectedAppend(m, b, head, Selected(m, a, rows[1..]));
      assert Truth(m, Conjoin(a, b), rows[0]) == Some(true)
        <==> Truth(m, a, rows[0]) == Some(true) && Truth(m, b, rows[0]) == Some(true);
    }
  }

  /** Attaching an outer condition to an inner join filters that join's result. */
  lemma {:induction false} ApplyAttach(m: Meaning, op: JoinOperator, on: Expr, l: Relation, r: Relation)
    requires IsInner(op)
    ensures Apply(m, Attach(op, on), l, r) == Where(m, on, Apply(m, op, l, r))
  {
    if op.Inner? {
      SelectedTwice(m, op.constraint.cond, on, Product(l, r).rows);
    }
  }

  lemma {:induction false} ProductApply(m: Meaning, op: JoinOperator, l: Relation, a: Relation, c: Relation)
    requires IsInner(op) && ScopedOp(op, a, c)
    ensures Product(l, Apply(m, op, a, c)) == Apply(m, op, Product(l, a), c)
    ensures ScopedOp(op, Product(l, a), c)
  {
    assert l.header + (a.header + c.header) == (l.header + a.header) + c.header;
    CrossAssociative(l.rows, a.rows, c.rows);
    if op.Inner? {
      var p := Product(a, c);
      assert forall row | row in p.rows :: Reads(op.constraint.cond) <= row.Keys;
      CrossSelected(m, op.constraint.cond, l.rows, p.rows);
    }
  }

  /** A product distributes over a list of inner joins on its right. */
  lemma {:induction false} ProductJoins(m: Meaning, l: Relation, b: Relation, joins: seq<Join>)
    requires AllInner(joins) && ScopedJoins(m, b, joins)
    ensures Product(l, EvalJoins(m, b, joins)) == EvalJoins(m, Product(l, b), joins)
    ensures ScopedJoins(m, Product(l, b), joins)
    decreases |joins|
  {
    if joins != [] {
      var c := EvalFactor(m, joins[0].relation);
      ProductApply(m, joins[0].op, l, b, c);
      ProductJoins(m, l, Apply(m, joins[0].op, b, c), joins[1..]);
    }
  }

  lemma {:induction false} JoinsAppend(m: Meaning, acc: Relation, a: seq<Join>, b: seq<Join>)
    ensures EvalJoins(m, acc, a + b) == EvalJoins(m, EvalJoins(m, acc, a), b)
    ensures ScopedJoins(m, acc, a + b) <==> ScopedJoins(m, acc, a) && ScopedJoins(m, EvalJoins(m, acc, a), b)
    decreases |a|
  {
    if a == [] {
      assert a + b == b;
    } else {
      assert (a + b)[1..] == a[1..] + b;
      JoinsAppend(m, EvalJoin(m, acc, a[0]), a[1..], b);
    }
  }

  lemma {:induction false} OneJoin(m: Meaning, acc: Relation, j: Join)
    ensures EvalJoins(m, acc, [j]) == EvalJoin(m, acc, j)
    ensures ScopedJoins(m, acc, [j]) <==> ScopedJoin(m, acc, j)
  {
    assert [j][1..] == [];
  }

  // --------------------------------------------------------------- main results

  /** The same for the last join alone. */
  lemma {:induction false} OneAttached(m: Meaning, x: Relation, last: Join, on: Expr)
    requires IsInner(last.op) && ScopedJoin(m, x, last) && Reads(on) <= EvalJoin(m, x, last).Cols()
    ensures
      var moved := last.(op := Attach(last.op, on));
      EvalJoin(m, x, moved) == Where(m, on, EvalJoin(m, x, last)) && ScopedJoin(m, x, moved)
  {
    var moved := last.(op := Attach(last.op, on));
    var c := EvalFactor(m, last.relation);
    ApplyAttach(m, last.op, on, x, c);
    assert Apply(m, last.op, x, c).Cols() == x.Cols() + c.Cols();
    assert Reads(moved.op.constraint.cond) <= x.Cols() + c.Cols();
  }

  /** Attaching a condition to the last, inner, join of a list filters the whole list's result. */
  lemma {:induction false} AttachLastFilters(m: Meaning, acc: Relation, joins: seq<Join>, on: Expr)
    requires joins != [] && IsInner(joins[|joins| - 1].op)
    requires ScopedJoins(m, acc, joins) && Reads(on) <= EvalJoins(m, acc, joins).Cols()
    ensures EvalJoins(m, acc, AttachLast(joins, on)) == Where(m, on, EvalJoins(m, acc, joins))
    ensures ScopedJoins(m, acc, AttachLast(joins, on))
  {
    var n := |joins| - 1;
    var last := joins[n];
    var moved := last.(op := Attach(last.op, on));
    var x := EvalJoins(m, acc, joins[..n]);
    assert joins == joins[..n] + [last];
    JoinsAppend(m, acc, joins[..n], [last]);
    JoinsAppend(m, acc, joins[..n], [moved]);
    OneJoin(m, x, last);
    OneJoin(m, x, moved);
    OneAttached(m, x, last, on);
  }

  /** `acc CROSS JOIN (b J1 c1 .. Jn cn)` without its parentheses, for inner J1 .. Jn. */
  lemma {:induction false} CrossListKeepsMeaning(m: Meaning, acc: Relation, inner: TableWithJoins)
    requires AllInner(inner.joins) && Scoped(m, inner)
    ensures
      var list := [Join(inner.relation, false, CrossJoin)] + inner.joins;
      EvalJoins(m, acc, list) == Product(acc, Eval(m, inner)) && ScopedJoins(m, acc, list)
  {
    var first := Join(inner.relation, false, CrossJoin);
    JoinsAppend(m, acc, [first], inner.joins);
    OneJoin(m, acc, first);
    ProductJoins(m, acc, EvalFactor(m, inner.relation), inner.joins);
  }

  lemma {:induction false} FlattenJoinKeepsMeaning(m: Meaning, acc: Relation, join: Join)
    requires ScopedJoins(m, acc, [join])
    ensures EvalJoins(m, acc, FlattenJoin(join)) == EvalJoins(m, acc, [join])
    ensures ScopedJoins(m, acc, FlattenJoin(join))
    decreases JoinSize(join), 0
  {
    OneJoin(m, acc, join);
    match Nested(join.relation)
    case None =>
    case Some(tables) =>
      var inner := Flattened(tables);
      FlattenKeepsMeaning(m, tables);
      if inner.joins == [] {
        OneJoin(m, acc, Join(inner.relation, join.global, join.op));
      } else if IsInner(join.op) && AllInner(inner.joins) {
        CrossListKeepsMeaning(m, acc, inner);
        if join.op.Inner? {
          AttachLastFilters(m, acc, [Join(inner.relation, false, CrossJoin)] + inner.joins, join.op.constraint.cond);
        }
      }
  }

  lemma {:induction false} FlattenJoinsKeepsMeaning(m: Meaning, acc: Relation, joins: seq<Join>)
    requires ScopedJoins(m, acc, joins)
    ensures EvalJoins(m, acc, FlattenJoins(joins)) == EvalJoins(m, acc, joins)
    ensures ScopedJoins(m, acc, FlattenJoins(joins))
    decreases JoinsSize(joins), |joins|, 1
  {
    if joins != [] {
      assert joins == [joins[0]] + joins[1..];
      JoinsAppend(m, acc, [joins[0]], joins[1..]);
      FlattenJoinKeepsMeaning(m, acc, joins[0]);
      FlattenJoinsKeepsMeaning(m, EvalJoins(m, acc, [joins[0]]), joins[1..]);
      JoinsAppend(m, acc, FlattenJoin(joins[0]), FlattenJoins(joins[1..]));
    }
  }

  /**
   * Flattening preserves meaning: whatever the tables, aliases, outer operators and (three-valued)
   * conditions mean, the flattened FROM item has the same header and the same rows in the same order.
   */
  lemma {:induction false} FlattenKeepsMeaning(m: Meaning, t: TableWithJoins)
    requires Scoped(m, t)
    ensures Eval(m, Flattened(t)) == Eval(m, t)
    ensures Scoped(m, Flattened(t))
    decreases Size(t), 0, 2
  {
    var u := Unwrapped(t);
    if Nested(t.relation).Some? {
      var tables := Nested(t.relation).value;
      FlattenKeepsMeaning(m, tables);
      var inner := Flattened(tables);
      JoinsSizeAppend(inner.joins, t.joins);
      JoinsAppend(m, EvalFactor(m, inner.relation), inner.joins, t.joins);
    }
    FlattenJoinsKeepsMeaning(m, EvalFactor(m, u.relation), u.joins);
  }

  // ----------------------------------------------------------- what flattened items look like

  /** A single table, perhaps in parentheses. */
  ghost predicate Single(t: TableWithJoins)
    decreases t
  {
    t.joins == [] && match t.relation
                     case NestedJoin(inner, None) => Single(inner)
                     case _ => true
  }

  /** Inner joins only, those in parentheses on the left included. */
  ghost predicate InnerOnly(t: TableWithJoins)
    decreases t
  {
    && (forall j | j in t.joins :: IsInner(j.op))
    && match t.relation
       case NestedJoin(inner, None) => InnerOnly(inner)
       case _ => true
  }

  /** A join in whose place the list in its parentheses could stand. */
  ghost predicate Removable(j: Join) {
    match j.relation
    case NestedJoin(inner, None) => Single(inner) || (IsInner(j.op) && InnerOnly(inner))
    case _ => false
  }

  /** No parentheses that could be taken off: none on the left, and none on the right but those that must stay. */
  ghost predicate IsFlat(t: TableWithJoins) {
    && !(t.relation.NestedJoin? && t.relation.alias.None?)
    && forall j | j in t.joins :: !Removable(j)
  }

  lemma {:induction false} FlattenedSingle(t: TableWithJoins)
    ensures Flattened(t).joins == [] <==> Single(t)
    decreases t
  {
    if Nested(t.relation).Some? { FlattenedSingle(Nested(t.relation).value); }
    var joins := Unwrapped(t).joins;
    if joins != [] { assert FlattenJoin(joins[0]) != []; }
  }

  lemma {:induction false} FlattenJoinInner(join: Join)
    ensures AllInner(FlattenJoin(join)) <==> IsInner(join.op)
  {
    var r := FlattenJoin(join);
    assert r[0] in r;
    if Nested(join.relation).Some? {
      var inner := Flattened(Nested(join.relation).value);
      if inner.joins != [] && IsInner(join.op) && AllInner(inner.joins) {
        assert forall j | j in [Join(inner.relation, false, CrossJoin)] + inner.joins :: IsInner(j.op);
      }
    }
  }

  lemma {:induction false} FlattenJoinsInner(joins: seq<Join>)
    ensures AllInner(FlattenJoins(joins)) <==> AllInner(joins)
  {
    if joins != [] {
      FlattenJoinInner(joins[0]);
      FlattenJoinsInner(joins[1..]);
      AllInnerAppend(FlattenJoin(joins[0]), FlattenJoins(joins[1..]));
      AllInnerAppend([joins[0]], joins[1..]);
      assert joins == [joins[0]] + joins[1..];
    }
  }

  lemma {:induction false} AllInnerAppend(a: seq<Join>, b: seq<Join>)
    ensures AllInner(a + b) <==> AllInner(a) && AllInner(b)
  {
    assert forall j | j in a :: j in a + b;
    assert forall j | j in b :: j in a + b;
  }

  lemma {:induction false} FlattenedInner(t: TableWithJoins)
    ensures AllInner(Flattened(t).joins) <==> InnerOnly(t)
    decreases t
  {
    var u := Unwrapped(t);
    FlattenJoinsInner(u.joins);
    if Nested(t.relation).Some? {
      var inner := Flattened(Nested(t.relation).value);
      FlattenedInner(Nested(t.relation).value);
      AllInnerAppend(inner.joins, t.joins);
    }
  }

  /** A join keeps its parentheses exactly if they cannot be removed. */
  lemma {:induction false} StaysIff(join: Join)
    ensures FlattenJoin(join) == [join] <==> !Removable(join)
  {
    if Nested(join.relation).Some? {
      var tables := Nested(join.relation).value;
      FlattenedSingle(tables);
      FlattenedInner(tables);
      assert FactorSize(Flattened(tables).relation) < FactorSize(join.relation);
    }
  }

  lemma {:induction false} FlattenJoinIsFlat(join: Join)
    ensures forall j | j in FlattenJoin(join) :: !Removable(j)
    decreases JoinSize(join), 0
  {
    StaysIff(join);
    if Removable(join) {
      var inner := Flattened(Nested(join.relation).value);
      FlattenIsFlat(Nested(join.relation).value);
      FlattenedSingle(Nested(join.relation).value);
      FlattenedInner(Nested(join.relation).value);
      if inner.joins != [] && join.op.Inner? {
        var last := inner.joins[|inner.joins| - 1];
        assert last in inner.joins && IsInner(last.op);
        var moved := last.(op := Attach(last.op, join.op.constraint.cond));
        assert !Removable(moved);
      }
    }
  }

  lemma {:induction false} FlattenJoinsIsFlat(joins: seq<Join>)
    ensures forall j | j in FlattenJoins(joins) :: !Removable(j)
    decreases JoinsSize(joins), |joins|, 1
  {
    if joins != [] {
      FlattenJoinIsFlat(joins[0]);
      FlattenJoinsIsFlat(joins[1..]);
    }
  }

  /**
   * A flattened item has no unaliased parentheses on the left, none around a single table, and none around a list of
   * inner joins on the right of an inner or a cross join.
   */
  lemma {:induction false} FlattenIsFlat(t: TableWithJoins)
    ensures IsFlat(Flattened(t))
    decreases Size(t), 0, 2
  {
    if Nested(t.relation).Some? {
      FlattenIsFlat(Nested(t.relation).value);
    }
    FlattenJoinsIsFlat(Unwrapped(t).joins);
  }

  lemma {:induction false} FlatJoinsStay(joins: seq<Join>)
    requires forall j | j in joins :: !Removable(j)
    ensures FlattenJoins(joins) == joins
  {
    if joins != [] {
      StaysIff(joins[0]);
      FlatJoinsStay(joins[1..]);
    }
  }

  // ------------------------------------------------------------- what is spelled out, in order

  /** What a FROM item spells out: tables, conditions and the operators that are not inner joins. */
  datatype Word = TableWord(factor: TableFactor) | CondWord(id: nat, cols: set<Col>) | OpWord(op: JoinOperator)

  ghost function ExprWords(e: Expr): seq<Word> {
    match e
    case Atom(id, cols) => [CondWord(id, cols)]
    case Paren(inner) => ExprWords(inner)
    case And(l, r) => ExprWords(l) + ExprWords(r)
  }

  ghost function OpWords(op: JoinOperator): seq<Word> {
    if op.CrossJoin? then []
    else if op.Inner? && op.constraint.On? then ExprWords(op.constraint.cond)
    else [OpWord(op)]
  }

  ghost function FactorWords(f: TableFactor): seq<Word>
    decreases f
  {
    match f
    case NestedJoin(t, None) => Words(t)
    case _ => [TableWord(f)]
  }

  ghost function JoinWords(j: Join): seq<Word>
    decreases j
  {
    FactorWords(j.relation) + OpWords(j.op)
  }

  ghost function JoinsWords(joins: seq<Join>): seq<Word>
    decreases joins
  {
    if joins == [] then [] else JoinWords(joins[0]) + JoinsWords(joins[1..])
  }

  ghost function Words(t: TableWithJoins): seq<Word>
    decreases t
  {
    FactorWords(t.relation) + JoinsWords(t.joins)
  }

  lemma {:induction false} WordsAppend(a: seq<Join>, b: seq<Join>)
    ensures JoinsWords(a + b) == JoinsWords(a) + JoinsWords(b)
  {
    if a == [] {
      assert a + b == b;
    } else {
      assert (a + b)[1..] == a[1..] + b;
      WordsAppend(a[1..], b);
    }
  }

  lemma {:induction false} OneWords(j: Join)
    ensures JoinsWords([j]) == JoinWords(j)
  {
    assert [j][1..] == [];
  }

  lemma {:induction false} AttachOpWords(op: JoinOperator, on: Expr)
    requires IsInner(op)
    ensures OpWords(Attach(op, on)) == OpWords(op) + ExprWords(on)
  {
    if op.Inner? {
      assert ExprWords(Paren(op.constraint.cond)) == ExprWords(op.constraint.cond);
      assert ExprWords(Paren(on)) == ExprWords(on);
    }
  }

  lemma {:induction false} AttachWords(joins: seq<Join>, on: Expr)
    requires joins != [] && IsInner(joins[|joins| - 1].op)
    ensures JoinsWords(AttachLast(joins, on)) == JoinsWords(joins) + ExprWords(on)
  {
    var n := |joins| - 1;
    var last := joins[n];
    var moved := last.(op := Attach(last.op, on));
    assert joins == joins[..n] + [last];
    AttachOpWords(last.op, on);
    LastWords(joins[..n], last, moved, ExprWords(on));
  }

  lemma {:induction false} LastWords(front: seq<Join>, last: Join, moved: Join, more: seq<Word>)
    requires moved.relation == last.relation && OpWords(moved.op) == OpWords(last.op) + more
    ensures JoinsWords(front + [moved]) == JoinsWords(front + [last]) + more
  {
    WordsAppend(front, [last]);
    WordsAppend(front, [moved]);
    OneWords(last);
    OneWords(moved);
    Reassociate(JoinsWords(front), FactorWords(last.relation), OpWords(last.op), more);
  }

  lemma {:induction false} Reassociate(a: seq<Word>, b: seq<Word>, c: seq<Word>, d: seq<Word>)
    ensures a + (b + (c + d)) == (a + (b + c)) + d
  {
  }

  lemma {:induction false} FlattenJoinWords(join: Join)
    ensures JoinsWords(FlattenJoin(join)) == JoinWords(join)
    decreases JoinSize(join), 0
  {
    OneWords(join);
    if Nested(join.relation).Some? {
      var inner := Flattened(Nested(join.relation).value);
      FlattenKeepsWords(Nested(join.relation).value);
      if inner.joins == [] {
        OneWords(Join(inner.relation, join.global, join.op));
      } else if IsInner(join.op) && AllInner(inner.joins) {
        var first := Join(inner.relation, false, CrossJoin);
        OneWords(first);
        WordsAppend([first], inner.joins);
        if join.op.Inner? {
          var last := inner.joins[|inner.joins| - 1];
          assert last in inner.joins;
          AttachWords([first] + inner.joins, join.op.constraint.cond);
        }
      }
    }
  }

  lemma {:induction false} FlattenJoinsWords(joins: seq<Join>)
    ensures JoinsWords(FlattenJoins(joins)) == JoinsWords(joins)
    decreases JoinsSize(joins), |joins|, 1
  {
    if joins != [] {
      FlattenJoinWords(joins[0]);
      FlattenJoinsWords(joins[1..]);
      WordsAppend(FlattenJoin(joins[0]), FlattenJoins(joins[1..]));
    }
  }

  /** Flattening spells out the same tables, conditions and outer operators in the same order. */
  lemma {:induction false} FlattenKeepsWords(t: TableWithJoins)
    ensures Words(Flattened(t)) == Words(t)
    decreases Size(t), 0, 2
  {
    var u := Unwrapped(t);
    FlattenJoinsWords(u.joins);
    if Nested(t.relation).Some? {
      var inner := Flattened(Nested(t.relation).value);
      FlattenKeepsWords(Nested(t.relation).value);
      FlattenIsFlat(Nested(t.relation).value);
      WordsAppend(inner.joins, t.joins);
    }
  }

  /** `a JOIN (b JOIN c ON y) ON x` is `a CROSS JOIN b JOIN c ON (y) AND (x)`. */
  lemma {:induction false} MovesCondition(a: nat, b: nat, c: nat, x: Expr, y: Expr)
    ensures
      var right := TableWithJoins(Table(b), [Join(Table(c), false, Inner(On(y)))]);
      Flattened(TableWithJoins(Table(a), [Join(NestedJoin(right, None), false, Inner(On(x)))])) ==
      TableWithJoins(Table(a), [Join(Table(b), false, CrossJoin),
                                               Join(Table(c), false, Inner(On(And(Paren(y), Paren(x)))))])
  {
    var inner := [Join(Table(c), false, Inner(On(y)))];
    var right := TableWithJoins(Table(b), inner);
    assert inner[1..] == [] && FlattenJoins(inner) == [inner[0]] + [];
    assert Flattened(right) == right;
    var joins := [Join(NestedJoin(right, None), false, Inner(On(x)))];
    assert joins[1..] == [] && FlattenJoins(joins) == FlattenJoin(joins[0]) + [];
    var out := [Join(Table(b), false, CrossJoin)] + inner;
    assert out[..1] == [out[0]];
  }

  lemma {:induction false} FlattenIdempotent(t: TableWithJoins)
    ensures Flattened(Flattened(t)) == Flattened(t)
  {
    FlattenIsFlat(t);
    FlatJoinsStay(Flattened(t).joins);
  }

  // ------------------------------------------------------- the in-place rewriting

  /** One item of a FROM clause, rewritten in place. */
  class FromItem {
    var relation: TableFactor
    var joins: seq<Join>

    function Value(): TableWithJoins
      reads this
    {
      TableWithJoins(relation, joins)
    }

    constructor (t: TableWithJoins)
      ensures Value() == t
    {
      relation, joins := t.relation, t.joins;
    }

    method Flatten()
      modifies this
      ensures Value() == Flattened(old(Value()))
      decreases Size(Value()), 1
    {
      ghost var t := Value();
      // On the left: `(a J1 b) J2 c` is `a J1 b J2 c`.
      while Nested(relation).Some?
        invariant if Nested(relation).Some? then Value() == t else Value() == Unwrapped(t)
        decreases Nested(relation).Some?
      {
        var inner := new FromItem(Nested(relation).value);
        inner.Flatten();
        FlattenIsFlat(Nested(t.relation).value);
        relation, joins := inner.relation, inner.joins + joins;
      }
      joins := RewriteAll(joins);
    }

    static method RewriteAll(taken: seq<Join>) returns (out: seq<Join>)
      ensures out == FlattenJoins(taken)
      decreases JoinsSize(taken), 1
    {
      out := [];
      for i := 0 to |taken|
        invariant out == FlattenJoins(taken[..i])
      {
        MemberSize(taken, i);
        var next := Rewrite(taken[i]);
        FlattenJoinsSnoc(taken[..i], taken[i]);
        assert taken[..i] + [taken[i]] == taken[..i + 1];
        out := out + next;
      }
      assert taken[..|taken|] == taken;
    }

    /** What takes one join's place: on the right of an inner join, a list of inner joins is moved out. */
    static method Rewrite(join: Join) returns (out: seq<Join>)
      ensures out == FlattenJoin(join)
      decreases JoinSize(join), 0
    {
      var tables := Nested(join.relation);
      if tables.None? {
        return [join];
      }
      var inner := new FromItem(tables.value);
      inner.Flatten();
      if inner.joins == [] {
        return [Join(inner.relation, join.global, join.op)];
      }
      if !IsInner(join.op) || !AllInner(inner.joins) {
        return [join];
      }
      out := [Join(inner.relation, false, CrossJoin)] + inner.joins;
      if join.op.Inner? {
        var last := |out| - 1;
        out := out[last := out[last].(op := Attach(out[last].op, join.op.constraint.cond))];
      }
    }
  }

  lemma {:induction false} FlattenJoinsSnoc(joins: seq<Join>, join: Join)
    ensures FlattenJoins(joins + [join]) == FlattenJoins(joins) + FlattenJoin(join)
  {
    if joins == [] {
      assert FlattenJoins([join]) == FlattenJoin(join) + FlattenJoins([join][1..]);
    } else {
      assert (joins + [join])[1..] == joins[1..] + [join];
      FlattenJoinsSnoc(joins[1..], join);
    }
  }

  lemma {:induction false} MemberSize(joins: seq<Join>, i: nat)
    requires i < |joins|
    ensures JoinSize(joins[i]) <= JoinsSize(joins)
  {
    if i > 0 {
      MemberSize(joins[1..], i - 1);
    }
  }
}
