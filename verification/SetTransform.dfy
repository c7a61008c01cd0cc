// A command over a query said as one UPDATE: what SQL makes of a row, how predicates, writes and
// lifecycle moves compile, and why a row the statement updates is a row a dispatch would save.
module SetTransform {
  import opened Wrappers
  import opened Expressions
  import opened Dispatch

  datatype Dialect = Sqlite | Postgres

  // ----- SQL -----

  datatype Cell = Null | Whole(i: int) | Real(f: real) | Text(s: string)

  // Three-valued logic.
  datatype Logic = True | False | Unknown

  // A store may refuse the statement while it computes (an overflowing bigint on Postgres).
  datatype Sql<+X> = Got(value: X) | Abort {
    predicate IsFailure() { Abort? }
    function PropagateFailure<U>(): Sql<U>
      requires Abort?
    {
      Abort
    }
    function Extract(): X
      requires Got?
    {
      value
    }
  }

  datatype SqlExpr = Bind(cell: Cell) | Column(name: string) | Arithmetic(op: ArithOp, l: SqlExpr, r: SqlExpr)

  datatype SqlPred =
    | SqlOr(l: SqlPred, r: SqlPred)
    | SqlAnd(l: SqlPred, r: SqlPred)
    | SqlNot(p: SqlPred)
    | Ordered(cmp: Cmp, left: SqlExpr, right: SqlExpr)
    | Matches(left: SqlExpr, right: SqlExpr, negated: bool)
    | NullTest(e: SqlExpr, negated: bool)
    | SignOf(test: Sign, e: SqlExpr)
    | IsInteger(e: SqlExpr)
    | StateIn(column: string, states: seq<string>)
    | Always

  function CellOf(v: Value): Cell {
    match v
    case Nil => Null
    case Bool(_) => Null
    case Int(i) => Whole(i)
    case Float(f) => Real(f)
    case Str(s) => Text(s)
  }

  function ValueOf(cell: Cell): Value {
    match cell
    case Null => Nil
    case Whole(i) => Int(i)
    case Real(f) => Float(f)
    case Text(s) => Str(s)
  }

  predicate NumericCell(c: Cell) { c.Whole? || c.Real? }

  function Magnitude(c: Cell): real
    requires NumericCell(c)
  {
    if c.Whole? then c.i as real else c.f
  }

  // A result outside 64 bits becomes a real on SQLite and is refused by Postgres.
  function Computes(op: ArithOp, l: Cell, r: Cell, dialect: Dialect): Sql<Cell> {
    if l.Null? || r.Null? then Got(Null)
    else if op.Div? || !NumericCell(l) || !NumericCell(r) then Abort
    else if l.Whole? && r.Whole? then
      var n := match op case Add => l.i + r.i case Sub => l.i - r.i case _ => l.i * r.i;
      if Fits64(n) then Got(Whole(n)) else if dialect.Sqlite? then Got(Real(n as real)) else Abort
    else
      var a, b := Magnitude(l), Magnitude(r);
      Got(Real(match op case Add => a + b case Sub => a - b case _ => a * b))
  }

  function Evaluated(e: SqlExpr, row: Row, dialect: Dialect): Sql<Cell> {
    match e
    case Bind(cell) => Got(cell)
    case Column(name) => Got(CellOf(Held(row, name)))
    case Arithmetic(op, l, r) =>
      var a :- Evaluated(l, row, dialect);
      var b :- Evaluated(r, row, dialect);
      Computes(op, a, b, dialect)
  }

  function Decided(b: bool): Logic { if b then True else False }

  function Flipped(x: Logic): Logic {
    match x case True => False case False => True case Unknown => Unknown
  }

  predicate CellsOrdered(cmp: Cmp, less: bool, greater: bool) {
    match cmp
    case Lt => less
    case Gt => greater
    case Le => !greater
    case Ge => !less
    case Eq => !less && !greater
    case Ne => less || greater
  }

  function OrderedCells(cmp: Cmp, a: Cell, b: Cell): Sql<Logic> {
    if a.Null? || b.Null? then Got(Unknown)
    else if NumericCell(a) && NumericCell(b) then
      Got(Decided(CellsOrdered(cmp, Magnitude(a) < Magnitude(b), Magnitude(b) < Magnitude(a))))
    else if a.Text? && b.Text? then Got(Decided(CellsOrdered(cmp, StrLess(a.s, b.s), StrLess(b.s, a.s))))
    else Abort
  }

  predicate SameCell(a: Cell, b: Cell) {
    if NumericCell(a) && NumericCell(b) then Magnitude(a) == Magnitude(b) else a == b
  }

  function Answer(p: SqlPred, row: Row, dialect: Dialect): Sql<Logic> {
    match p
    case SqlOr(l, r) =>
      var a :- Answer(l, row, dialect);
      if a.True? then Got(True)
      else
        var b :- Answer(r, row, dialect);
        Got(if b.True? then True else if a.False? && b.False? then False else Unknown)
    case SqlAnd(l, r) =>
      var a :- Answer(l, row, dialect);
      if a.False? then Got(False)
      else
        var b :- Answer(r, row, dialect);
        Got(if b.False? then False else if a.True? && b.True? then True else Unknown)
    case SqlNot(q) =>
      var a :- Answer(q, row, dialect);
      Got(Flipped(a))
    case Ordered(cmp, left, right) =>
      var a :- Evaluated(left, row, dialect);
      var b :- Evaluated(right, row, dialect);
      OrderedCells(cmp, a, b)
    case Matches(left, right, negated) =>
      var a :- Evaluated(left, row, dialect);
      var b :- Evaluated(right, row, dialect);
      Got(Decided(SameCell(a, b) != negated))
    case NullTest(e, negated) =>
      var a :- Evaluated(e, row, dialect);
      Got(Decided(a.Null? != negated))
    case SignOf(test, e) =>
      var a :- Evaluated(e, row, dialect);
      if !NumericCell(a) then Got(Unknown)
      else Got(Decided(match test
                       case Positive => Magnitude(a) > 0.0
                       case Negative => Magnitude(a) < 0.0
                       case Zero => Magnitude(a) == 0.0))
    case IsInteger(e) =>
      var a :- Evaluated(e, row, dialect);
      Got(Decided(a.Whole?))
    case StateIn(column, states) =>
      var current := CellOf(Held(row, column));
      Got(Decided((if current.Text? then current.s else "") in states))
    case Always => Got(True)
  }

  // A WHERE list: every clause must be true; a false one ends the row before the rest is read.
  function AllTrue(clauses: seq<SqlPred>, row: Row, dialect: Dialect): Sql<bool> {
    if clauses == [] then Got(true)
    else
      var a :- Answer(clauses[0], row, dialect);
      if a.False? then Got(false)
      else
        var rest :- AllTrue(clauses[1..], row, dialect);
        Got(a.True? && rest)
  }

  // ----- Compiling -----

  // What one run compiles against: the argument a row's id fills, and every other argument.
  datatype Ctx = Ctx(schema: Schema, key: string, defaults: Env, dialect: Dialect) {
    ghost predicate Valid() { schema.Valid() && key !in defaults }
  }

  // The arguments a row's own dispatch carries.
  function ForRow(c: Ctx, id: string): Env { c.defaults[c.key := Str(id)] }

  datatype OperandType = IntegerOp | FloatOp | StringOp | NullOp

  datatype Operand = Operand(sql: SqlExpr, optype: OperandType, guards: seq<SqlPred>)

  datatype Clause = Clause(sql: SqlPred, guards: seq<SqlPred>)

  function TypeOf(kind: Kind): OperandType {
    match kind case Integer => IntegerOp case Decimal => FloatOp case Textual => StringOp
  }

  function ScalarKind(schema: Schema, name: string): Option<Kind> {
    if schema.lifecycle == Some(name) then Some(Textual)
    else if name in schema.fields then Some(schema.fields[name].kind)
    else None
  }

  function NotNull(e: SqlExpr): SqlPred { NullTest(e, true) }

  function IntegerGuard(e: SqlExpr, dialect: Dialect): seq<SqlPred> {
    if dialect.Sqlite? then [IsInteger(e)] else []
  }

  function BindArgument(v: Value, strict: bool): Option<Operand> {
    match v
    case Nil => if strict then None else Some(Operand(Bind(Null), NullOp, []))
    case Bool(_) => None
    case Int(i) => Some(Operand(Bind(Whole(i)), IntegerOp, []))
    case Float(f) => Some(Operand(Bind(Real(f)), FloatOp, []))
    case Str(s) => Some(Operand(Bind(Text(s)), StringOp, []))
  }

  function CompileLookup(name: string, strict: bool, c: Ctx): Option<Operand> {
    if name == c.key then None
    else if name in c.defaults then BindArgument(c.defaults[name], strict)
    else match ScalarKind(c.schema, name)
         case None => None
         case Some(kind) => Some(Operand(Column(name), TypeOf(kind), if strict then [NotNull(Column(name))] else []))
  }

  function CompileLeaf(e: Leaf, strict: bool, c: Ctx): Option<Operand> {
    match e
    case IntLit(i) => Some(Operand(Bind(Whole(i)), IntegerOp, []))
    case FloatLit(f) => Some(Operand(Bind(Real(f)), FloatOp, []))
    case StrLit(s) => Some(Operand(Bind(Text(s)), StringOp, []))
    case NilLit => if strict then None else Some(Operand(Bind(Null), NullOp, []))
    case Lookup(name) => CompileLookup(name, strict, c)
    case Arith(op, left, right) =>
      var l, r := CompileLeaf(left, true, c), CompileLeaf(right, true, c);
      if op.Div? || l.None? || r.None? || !l.value.optype.IntegerOp? || !r.value.optype.IntegerOp? then None
      else
        var sql := Arithmetic(op, l.value.sql, r.value.sql);
        Some(Operand(sql, IntegerOp, l.value.guards + r.value.guards + IntegerGuard(sql, c.dialect)))
    case _ => None
  }

  predicate NumericOp(t: OperandType) { t.IntegerOp? || t.FloatOp? }

  predicate OrderedPair(l: OperandType, r: OperandType) {
    (NumericOp(l) && NumericOp(r)) || (l.StringOp? && r.StringOp?)
  }

  predicate Comparable(l: OperandType, r: OperandType) { l.NullOp? || r.NullOp? || OrderedPair(l, r) }

  function CompileCompare(cmp: Cmp, left: Leaf, right: Leaf, c: Ctx): Option<Clause> {
    var l, r := CompileLeaf(left, cmp.Ordering(), c), CompileLeaf(right, cmp.Ordering(), c);
    if l.None? || r.None? then None
    else if cmp.Ordering() then
      if !OrderedPair(l.value.optype, r.value.optype) then None
      else Some(Clause(Ordered(cmp, l.value.sql, r.value.sql), l.value.guards + r.value.guards))
    else if !Comparable(l.value.optype, r.value.optype) then None
    else Some(Clause(Matches(l.value.sql, r.value.sql, cmp.Ne?), l.value.guards + r.value.guards))
  }

  function CompileTest(e: Leaf, c: Ctx): Option<Clause> {
    match e
    case SignTest(test, receiver) =>
      var r := CompileLeaf(receiver, true, c);
      if r.None? || !NumericOp(r.value.optype) then None else Some(Clause(SignOf(test, r.value.sql), r.value.guards))
    case Assigned(receiver, negated) =>
      var r := CompileLeaf(receiver, false, c);
      if r.None? then None else Some(Clause(NullTest(r.value.sql, !negated), r.value.guards))
    case _ => None
  }

  function CompilePred(p: Pred, c: Ctx): Option<Clause> {
    match p
    case Or(l, r) =>
      var a, b := CompilePred(l, c), CompilePred(r, c);
      if a.None? || b.None? then None
      else Some(Clause(SqlOr(a.value.sql, b.value.sql), a.value.guards + b.value.guards))
    case And(l, r) =>
      var a, b := CompilePred(l, c), CompilePred(r, c);
      if a.None? || b.None? then None
      else Some(Clause(SqlAnd(a.value.sql, b.value.sql), a.value.guards + b.value.guards))
    case Not(q) =>
      var a := CompilePred(q, c);
      if a.None? then None else Some(Clause(SqlNot(a.value.sql), a.value.guards))
    case Compare(cmp, left, right) => CompileCompare(cmp, left, right, c)
    case Test(e) => CompileTest(e, c)
  }

  function CompileAll(ps: seq<Pred>, c: Ctx): Option<seq<Clause>> {
    if ps == [] then Some([])
    else
      var first, rest := CompilePred(ps[0], c), CompileAll(ps[1..], c);
      if first.None? || rest.None? then None else Some([first.value] + rest.value)
  }

  // One column a statement writes.
  datatype Write = Write(column: string, sql: SqlExpr, guards: seq<SqlPred>)

  // A source the planner resolves once for every row; the row's key differs per row.
  function Constant(source: Source, c: Ctx): Option<Value> {
    if source == Argument(c.key) then None else Amount(source, c.defaults)
  }

  function CompileStep(target: string, source: Source, sign: int, c: Ctx): Option<Write>
    requires target in c.schema.fields
  {
    var amount := Constant(source, c);
    if amount.None? || !amount.value.Int? || !c.schema.fields[target].kind.Integer? then None
    else
      var sum := Arithmetic(Add, Column(target), Bind(Whole(sign * amount.value.i)));
      Some(Write(target, sum, [NotNull(Column(target))] + IntegerGuard(sum, c.dialect)))
  }

  function CompileEffect(effect: Effect, c: Ctx): Option<Write>
    requires effect.target in c.schema.fields
  {
    var target := effect.target;
    if !c.schema.fields[target].Writable() then None
    else match effect.op
         case SetTo(State(name)) =>
           if name in c.schema.fields && c.schema.fields[name].kind == c.schema.fields[target].kind
           then Some(Write(target, Column(name), [])) else None
         case SetTo(Computed(e)) =>
           var operand := CompileLeaf(e, true, c);
           if operand.None? || operand.value.optype != TypeOf(c.schema.fields[target].kind) then None
           else Some(Write(target, operand.value.sql, operand.value.guards + [NotNull(operand.value.sql)]))
         case SetTo(source) =>
           var constant := Constant(source, c);
           if constant.None? || !Coerced(c.schema, target, constant.value).Put? then None
           else Some(Write(target, Bind(CellOf(constant.value)), []))
         case Increment(source) => CompileStep(target, source, 1, c)
         case Decrement(source) => CompileStep(target, source, -1, c)
         case _ => None
  }

  function CompileEffects(effects: seq<Effect>, c: Ctx): Option<seq<Write>>
    requires forall e :: e in effects ==> e.target in c.schema.fields
  {
    if effects == [] then Some([])
    else
      var first, rest := CompileEffect(effects[0], c), CompileEffects(effects[1..], c);
      if first.None? || rest.None? then None else Some([first.value] + rest.value)
  }

  // The condition under which one declared move applies.
  function MoveSql(move: Move, column: string): SqlPred {
    if move.from.None? then Always else StateIn(column, move.from.value)
  }

  function AnyMove(moves: seq<Move>, column: string): SqlPred
    requires moves != []
  {
    if |moves| == 1 then MoveSql(moves[0], column) else SqlOr(MoveSql(moves[0], column), AnyMove(moves[1..], column))
  }

  // The CASE over the states a transition moves from; its last arm is never reached past the filter.
  function CaseTarget(moves: seq<Move>, column: string, row: Row, dialect: Dialect): Cell {
    if moves == [] then Null
    else if Answer(MoveSql(moves[0], column), row, dialect) == Got(True) then Text(moves[0].target)
    else CaseTarget(moves[1..], column, row, dialect)
  }

  datatype Statement = Statement(
    query: seq<SqlPred>,
    conditions: seq<SqlPred>,
    givens: seq<SqlPred>,
    guards: seq<SqlPred>,
    writes: seq<Write>,
    moves: seq<Move>,
    column: string)
  {
    function Where(): seq<SqlPred> { query + conditions + givens + guards }
  }

  function Sqls(clauses: seq<Clause>): seq<SqlPred> {
    if clauses == [] then [] else [clauses[0].sql] + Sqls(clauses[1..])
  }

  function GuardsOf(clauses: seq<Clause>): seq<SqlPred> {
    if clauses == [] then [] else clauses[0].guards + GuardsOf(clauses[1..])
  }

  function WriteGuards(writes: seq<Write>): seq<SqlPred> {
    if writes == [] then [] else writes[0].guards + WriteGuards(writes[1..])
  }

  // Nothing is checked after the writes, and no rule reads the settled record.
  predicate Eligible(schema: Schema, command: Command) {
    command.ensuring == [] && schema.invariants == []
  }

  function Conditions(command: Command, column: string): seq<SqlPred> {
    (if command.moves == [] then [] else [AnyMove(command.moves, column)])
    + (if command.from.None? then [] else [StateIn(column, command.from.value)])
  }

  // The run as one statement, or nothing when part of it must be dispatched row by row.
  function Compile(c: Ctx, command: Command, query: seq<SqlPred>, roleHeld: bool): Option<Statement>
    requires WellFormed(command, c.schema)
  {
    if !Eligible(c.schema, command) || !roleHeld then None
    else
      var givens := CompileAll(command.givens, c);
      var writes := CompileEffects(command.effects, c);
      if givens.None? || writes.None? then None
      else
        var column := if c.schema.lifecycle.Some? then c.schema.lifecycle.value else "";
        Some(Statement(query, Conditions(command, column), Sqls(givens.value),
                       WriteGuards(writes.value) + GuardsOf(givens.value), writes.value, command.moves, column))
  }

  // ----- Running -----

  function Selected(st: Statement, row: Row, dialect: Dialect): Sql<bool> {
    AllTrue(st.Where(), row, dialect)
  }

  // The SET list reads the row as it was, whatever it has already written.
  function Written(writes: seq<Write>, old_: Row, dialect: Dialect, row: Row): Sql<Row>
    decreases |writes|
  {
    if writes == [] then Got(row)
    else
      var cell :- Evaluated(writes[0].sql, old_, dialect);
      Written(writes[1..], old_, dialect, row[writes[0].column := ValueOf(cell)])
  }

  function Updated(st: Statement, row: Row, dialect: Dialect): Sql<Row> {
    var written :- Written(st.writes, row, dialect, row);
    Got(if st.moves == [] then written
        else written[st.column := ValueOf(CaseTarget(st.moves, st.column, row, dialect))])
  }
}
