// The one-statement form refines a dispatch: a row the statement updates is saved by Ruby as the
// very same record, and a row whose guards hold but which it skips is one Ruby does not save.
module SetTransformSoundness {
  import opened Wrappers
  import opened Expressions
  import opened Dispatch
  import opened SetTransform

  ghost predicate AllHold(guards: seq<SqlPred>, row: Row, dialect: Dialect) {
    forall g :: g in guards ==> Answer(g, row, dialect) == Got(True)
  }

  ghost predicate CellFits(t: OperandType, cell: Cell) {
    match t
    case IntegerOp => cell.Whole? || cell.Null?
    case FloatOp => cell.Real? || cell.Null?
    case StringOp => cell.Text? || cell.Null?
    case NullOp => cell.Null?
  }

  lemma {:induction false} AllHoldSplit(a: seq<SqlPred>, b: seq<SqlPred>, row: Row, dialect: Dialect)
    ensures AllHold(a + b, row, dialect) <==> AllHold(a, row, dialect) && AllHold(b, row, dialect)
  {
    if AllHold(a + b, row, dialect) {
      forall g | g in a ensures Answer(g, row, dialect) == Got(True) { assert g in a + b; }
      forall g | g in b ensures Answer(g, row, dialect) == Got(True) { assert g in a + b; }
    }
  }

  // An operand whose guards hold answers the value the interpreter answers, never a fault.
  lemma {:induction false} OperandMeansTheSame(e: Leaf, strict: bool, c: Ctx, row: Row, id: string)
    requires c.Valid() && WellTyped(row, c.schema)
    requires var op := CompileLeaf(e, strict, c);
             op.Some? && AllHold(op.value.guards, row, c.dialect) && Evaluated(op.value.sql, row, c.dialect).Got?
    ensures var op := CompileLeaf(e, strict, c).value; var cell := Evaluated(op.sql, row, c.dialect).value;
            && Interpret(e, row, ForRow(c, id)) == Ok(ValueOf(cell))
            && CellFits(op.optype, cell)
            && (strict ==> !cell.Null?)
  {
    hide Combine, Computes;
    match e
    case Lookup(name) =>
      var op := CompileLeaf(e, strict, c).value;
      if name !in c.defaults && strict {
        assert NotNull(Column(name)) in op.guards;
      }
    case Arith(op, left, right) =>
      var l, r := CompileLeaf(left, true, c).value, CompileLeaf(right, true, c).value;
      var sql := Arithmetic(op, l.sql, r.sql);
      AllHoldSplit(l.guards + r.guards, IntegerGuard(sql, c.dialect), row, c.dialect);
      AllHoldSplit(l.guards, r.guards, row, c.dialect);
      OperandMeansTheSame(left, true, c, row, id);
      OperandMeansTheSame(right, true, c, row, id);
      if c.dialect.Sqlite? {
        assert IsInteger(sql) in IntegerGuard(sql, c.dialect);
      }
      SumMeansTheSame(op, Evaluated(l.sql, row, c.dialect).value, Evaluated(r.sql, row, c.dialect).value, c.dialect);
    case _ =>
  }

  // Where the store computes a whole number of two, dispatch computes the same one.
  lemma SumMeansTheSame(op: ArithOp, a: Cell, b: Cell, dialect: Dialect)
    requires !op.Div? && a.Whole? && b.Whole? && Computes(op, a, b, dialect).Got?
    requires dialect.Sqlite? ==> Computes(op, a, b, dialect).value.Whole?
    ensures Computes(op, a, b, dialect).value.Whole?
    ensures Combine(op, ValueOf(a), ValueOf(b)) == Ok(ValueOf(Computes(op, a, b, dialect).value))
  {
  }

  lemma OrderMeansTheSame(cmp: Cmp, a: Cell, b: Cell)
    requires cmp.Ordering() && ((NumericCell(a) && NumericCell(b)) || (a.Text? && b.Text?))
    ensures OrderedCells(cmp, a, b).Got? && !OrderedCells(cmp, a, b).value.Unknown?
    ensures Apply(cmp, ValueOf(a), ValueOf(b)) == Ok(OrderedCells(cmp, a, b).value.True?)
  {
    if a.Text? {
      StrLessTotal(a.s, b.s);
      StrLessTotal(b.s, a.s);
    }
  }

  lemma EqualityMeansTheSame(a: Cell, b: Cell, negated: bool)
    ensures Apply(if negated then Ne else Eq, ValueOf(a), ValueOf(b)) == Ok(SameCell(a, b) != negated)
  {
  }

  lemma {:induction false} CompareMeansTheSame(cmp: Cmp, left: Leaf, right: Leaf, c: Ctx, row: Row, id: string)
    requires c.Valid() && WellTyped(row, c.schema)
    requires var k := CompileCompare(cmp, left, right, c);
             k.Some? && AllHold(k.value.guards, row, c.dialect) && Answer(k.value.sql, row, c.dialect).Got?
    ensures var answer := Answer(CompileCompare(cmp, left, right, c).value.sql, row, c.dialect).value;
            !answer.Unknown? && Holds(Compare(cmp, left, right), row, ForRow(c, id)) == Ok(answer.True?)
  {
    hide CompileLeaf, Interpret, Evaluated, OrderedCells, SameCell, Apply, WellTyped;
    var l, r := CompileLeaf(left, cmp.Ordering(), c).value, CompileLeaf(right, cmp.Ordering(), c).value;
    AllHoldSplit(l.guards, r.guards, row, c.dialect);
    OperandMeansTheSame(left, cmp.Ordering(), c, row, id);
    OperandMeansTheSame(right, cmp.Ordering(), c, row, id);
    var a, b := Evaluated(l.sql, row, c.dialect).value, Evaluated(r.sql, row, c.dialect).value;
    assert Holds(Compare(cmp, left, right), row, ForRow(c, id)) == Apply(cmp, ValueOf(a), ValueOf(b));
    if cmp.Ordering() {
      OrderMeansTheSame(cmp, a, b);
    } else {
      EqualityMeansTheSame(a, b, cmp.Ne?);
    }
  }

  lemma {:induction false} TestMeansTheSame(e: Leaf, c: Ctx, row: Row, id: string)
    requires c.Valid() && WellTyped(row, c.schema)
    requires var k := CompileTest(e, c);
             k.Some? && AllHold(k.value.guards, row, c.dialect) && Answer(k.value.sql, row, c.dialect).Got?
    ensures var answer := Answer(CompileTest(e, c).value.sql, row, c.dialect).value;
            !answer.Unknown? && Holds(Test(e), row, ForRow(c, id)) == Ok(answer.True?)
  {
    hide CompileLeaf, Evaluated, WellTyped;
    match e
    case SignTest(_, receiver) => OperandMeansTheSame(receiver, true, c, row, id);
    case Assigned(receiver, _) => OperandMeansTheSame(receiver, false, c, row, id);
    case _ =>
  }

  // A predicate whose guards hold is two-valued in SQL and means what Ruby means by it.
  lemma {:induction false} PredicateMeansTheSame(p: Pred, c: Ctx, row: Row, id: string)
    requires c.Valid() && WellTyped(row, c.schema)
    requires var k := CompilePred(p, c);
             k.Some? && AllHold(k.value.guards, row, c.dialect) && Answer(k.value.sql, row, c.dialect).Got?
    ensures var answer := Answer(CompilePred(p, c).value.sql, row, c.dialect).value;
            !answer.Unknown? && Holds(p, row, ForRow(c, id)) == Ok(answer.True?)
  {
    match p
    case Or(l, r) =>
      var a, b := CompilePred(l, c).value, CompilePred(r, c).value;
      AllHoldSplit(a.guards, b.guards, row, c.dialect);
      PredicateMeansTheSame(l, c, row, id);
      if !Answer(a.sql, row, c.dialect).value.True? {
        PredicateMeansTheSame(r, c, row, id);
      }
    case And(l, r) =>
      var a, b := CompilePred(l, c).value, CompilePred(r, c).value;
      AllHoldSplit(a.guards, b.guards, row, c.dialect);
      PredicateMeansTheSame(l, c, row, id);
      if !Answer(a.sql, row, c.dialect).value.False? {
        PredicateMeansTheSame(r, c, row, id);
      }
    case Not(q) => PredicateMeansTheSame(q, c, row, id);
    case Compare(cmp, left, right) => CompareMeansTheSame(cmp, left, right, c, row, id);
    case Test(e) => TestMeansTheSame(e, c, row, id);
  }

  // ----- Clause lists -----

  lemma {:induction false} AllTrueMeansAllHold(clauses: seq<SqlPred>, row: Row, dialect: Dialect)
    ensures AllTrue(clauses, row, dialect) == Got(true) <==> AllHold(clauses, row, dialect)
  {
    if clauses != [] {
      AllTrueMeansAllHold(clauses[1..], row, dialect);
      assert clauses == [clauses[0]] + clauses[1..];
      assert clauses[0] in clauses;
      AllHoldSplit([clauses[0]], clauses[1..], row, dialect);
      assert AllHold([clauses[0]], row, dialect) <==> Answer(clauses[0], row, dialect) == Got(True);
    }
  }

  lemma WhereHolds(st: Statement, row: Row, dialect: Dialect)
    ensures Selected(st, row, dialect) == Got(true) <==>
            AllHold(st.query, row, dialect) && AllHold(st.conditions, row, dialect)
            && AllHold(st.givens, row, dialect) && AllHold(st.guards, row, dialect)
  {
    AllTrueMeansAllHold(st.Where(), row, dialect);
    AllHoldSplit(st.query + st.conditions + st.givens, st.guards, row, dialect);
    AllHoldSplit(st.query + st.conditions, st.givens, row, dialect);
    AllHoldSplit(st.query, st.conditions, row, dialect);
  }

  // Givens that all answer true are givens Ruby passes.
  lemma {:induction false} GivensPass(givens: seq<Pred>, c: Ctx, row: Row, id: string, index: nat)
    requires c.Valid() && WellTyped(row, c.schema)
    requires CompileAll(givens, c).Some?
    requires AllHold(GuardsOf(CompileAll(givens, c).value), row, c.dialect)
    ensures AllHold(Sqls(CompileAll(givens, c).value), row, c.dialect) ==>
              Judge(givens, row, ForRow(c, id), index).Pass?
    ensures AllTrue(Sqls(CompileAll(givens, c).value), row, c.dialect) == Got(false) ==>
              Judge(givens, row, ForRow(c, id), index).Fails?
    decreases |givens|
  {
    hide CompilePred, Holds, WellTyped;
    if givens != [] {
      var first, rest := CompilePred(givens[0], c).value, CompileAll(givens[1..], c).value;
      assert CompileAll(givens, c).value == [first] + rest;
      assert GuardsOf([first] + rest) == first.guards + GuardsOf(rest);
      assert Sqls([first] + rest) == [first.sql] + Sqls(rest);
      AllHoldSplit(first.guards, GuardsOf(rest), row, c.dialect);
      AllHoldSplit([first.sql], Sqls(rest), row, c.dialect);
      GivensPass(givens[1..], c, row, id, index + 1);
      if Answer(first.sql, row, c.dialect).Got? {
        PredicateMeansTheSame(givens[0], c, row, id);
      }
      assert AllHold([first.sql], row, c.dialect) ==> Answer(first.sql, row, c.dialect) == Got(True) by {
        assert first.sql in [first.sql];
      }
    }
  }

  // ----- Writes -----

  lemma {:induction false} WriteMeansTheSame(effect: Effect, c: Ctx, row: Row, id: string)
    requires c.Valid() && WellTyped(row, c.schema)
    requires effect.target in c.schema.fields
    requires var w := CompileEffect(effect, c);
             w.Some? && AllHold(w.value.guards, row, c.dialect) && Evaluated(w.value.sql, row, c.dialect).Got?
    ensures var w := CompileEffect(effect, c).value;
            && w.column == effect.target
            && Effected(c.schema, effect, row, ForRow(c, id)) == Put(ValueOf(Evaluated(w.sql, row, c.dialect).value))
  {
    var w := CompileEffect(effect, c).value;
    match effect.op
    case SetTo(Computed(e)) =>
      AllHoldSplit(CompileLeaf(e, true, c).value.guards, [NotNull(w.sql)], row, c.dialect);
      OperandMeansTheSame(e, true, c, row, id);
    case SetTo(Literal(_)) =>
    case SetTo(Argument(_)) =>
    case SetTo(State(_)) =>
    case Increment(source) => StepMeansTheSame(effect.target, source, 1, c, row, id);
    case Decrement(source) => StepMeansTheSame(effect.target, source, -1, c, row, id);
  }

  lemma StepMeansTheSame(target: string, source: Source, sign: int, c: Ctx, row: Row, id: string)
    requires c.Valid() && WellTyped(row, c.schema)
    requires target in c.schema.fields && c.schema.fields[target].Writable()
    requires sign == 1 || sign == -1
    requires var w := CompileStep(target, source, sign, c);
             w.Some? && AllHold(w.value.guards, row, c.dialect) && Evaluated(w.value.sql, row, c.dialect).Got?
    ensures Stepped(c.schema, target, if sign == 1 then Add else Sub, row, source, ForRow(c, id))
            == Put(ValueOf(Evaluated(CompileStep(target, source, sign, c).value.sql, row, c.dialect).value))
  {
    var w := CompileStep(target, source, sign, c).value;
    assert NotNull(Column(target)) in w.guards;
    if c.dialect.Sqlite? {
      assert IsInteger(w.sql) in w.guards;
    }
  }

  lemma {:induction false} WritesMeanTheSame(effects: seq<Effect>, c: Ctx, row: Row, id: string, candidate: Row)
    requires c.Valid() && WellTyped(row, c.schema)
    requires forall e :: e in effects ==> e.target in c.schema.fields
    requires var w := CompileEffects(effects, c);
             w.Some? && AllHold(WriteGuards(w.value), row, c.dialect)
             && Written(w.value, row, c.dialect, candidate).Got?
    ensures ApplyEffects(c.schema, effects, row, ForRow(c, id), candidate)
            == Saved(Written(CompileEffects(effects, c).value, row, c.dialect, candidate).value)
    decreases |effects|
  {
    if effects != [] {
      var first, rest := CompileEffect(effects[0], c).value, CompileEffects(effects[1..], c).value;
      assert CompileEffects(effects, c).value == [first] + rest;
      assert WriteGuards([first] + rest) == first.guards + WriteGuards(rest);
      assert ([first] + rest)[1..] == rest;
      AllHoldSplit(first.guards, WriteGuards(rest), row, c.dialect);
      WriteMeansTheSame(effects[0], c, row, id);
      var cell := Evaluated(first.sql, row, c.dialect).value;
      WritesMeanTheSame(effects[1..], c, row, id, candidate[effects[0].target := ValueOf(cell)]);
    }
  }

  // ----- The lifecycle -----

  lemma StateInMeansIncludes(c: Ctx, row: Row, states: seq<string>)
    requires c.Valid() && WellTyped(row, c.schema) && c.schema.lifecycle.Some?
    ensures Answer(StateIn(c.schema.lifecycle.value, states), row, c.dialect)
            == Got(Decided(CurrentState(c.schema, row) in states))
  {
  }

  lemma {:induction false} MovesMeanTheSame(moves: seq<Move>, c: Ctx, row: Row)
    requires c.Valid() && WellTyped(row, c.schema) && c.schema.lifecycle.Some?
    requires moves != []
    ensures var column := c.schema.lifecycle.value; var move := MoveFor(moves, CurrentState(c.schema, row));
            && Answer(AnyMove(moves, column), row, c.dialect) == Got(Decided(move.Some?))
            && (move.Some? ==> CaseTarget(moves, column, row, c.dialect) == Text(move.value.target))
  {
    var column := c.schema.lifecycle.value;
    if moves[0].from.Some? {
      StateInMeansIncludes(c, row, moves[0].from.value);
    }
    if |moves| > 1 {
      MovesMeanTheSame(moves[1..], c, row);
    }
  }

  lemma ConditionsMeanAdmissible(c: Ctx, command: Command, row: Row)
    requires c.Valid() && WellTyped(row, c.schema) && WellFormed(command, c.schema)
    ensures var column := if c.schema.lifecycle.Some? then c.schema.lifecycle.value else "";
            var current := CurrentState(c.schema, row);
            AllTrue(Conditions(command, column), row, c.dialect) ==
              Got((command.moves != [] ==> MoveFor(command.moves, current).Some?)
                  && (command.from.Some? ==> current in command.from.value))
  {
    var column := if c.schema.lifecycle.Some? then c.schema.lifecycle.value else "";
    var guard: seq<SqlPred> := if command.from.None? then [] else [StateIn(column, command.from.value)];
    if command.from.Some? {
      StateInMeansIncludes(c, row, command.from.value);
      assert guard[1..] == [];
    }
    assert AllTrue(guard, row, c.dialect)
           == Got(command.from.Some? ==> CurrentState(c.schema, row) in command.from.value);
    var clauses := Conditions(command, column);
    if command.moves != [] {
      MovesMeanTheSame(command.moves, c, row);
      assert clauses == [AnyMove(command.moves, column)] + guard;
      assert clauses[0] == AnyMove(command.moves, column) && clauses[1..] == guard;
      assert AllTrue(clauses, row, c.dialect) ==
             if MoveFor(command.moves, CurrentState(c.schema, row)).None? then Got(false)
             else AllTrue(guard, row, c.dialect);
    } else {
      assert clauses == guard;
    }
  }

  // ----- The statement -----

  // A row the statement updates is one a dispatch saves, as the same record.
  lemma UpdatedRowIsSaved(c: Ctx, command: Command, query: seq<SqlPred>, row: Row, id: string)
    requires c.Valid() && WellFormed(command, c.schema) && WellTyped(row, c.schema)
    requires var st := Compile(c, command, query, true);
             st.Some? && Selected(st.value, row, c.dialect) == Got(true) && Updated(st.value, row, c.dialect).Got?
    ensures Dispatched(c.schema, command, row, ForRow(c, id), true)
            == Saved(Updated(Compile(c, command, query, true).value, row, c.dialect).value)
  {
    var st := Compile(c, command, query, true).value;
    var args := ForRow(c, id);
    WhereHolds(st, row, c.dialect);
    var givens := CompileAll(command.givens, c).value;
    AllHoldSplit(WriteGuards(st.writes), GuardsOf(givens), row, c.dialect);
    GivensPass(command.givens, c, row, id, 0);
    ConditionsMeanAdmissible(c, command, row);
    AllTrueMeansAllHold(st.conditions, row, c.dialect);
    WritesMeanTheSame(command.effects, c, row, id, row);
    if command.moves != [] {
      MovesMeanTheSame(command.moves, c, row);
    }
    var settled := Updated(st, row, c.dialect).value;
    assert Judge(command.ensuring, settled, args - settled.Keys) == Pass;
    assert Judge(c.schema.invariants, settled, map[]) == Pass;
  }

  lemma {:induction false} TrueClausesDecideNothing(a: seq<SqlPred>, b: seq<SqlPred>, row: Row, dialect: Dialect)
    ensures AllHold(a, row, dialect) ==> AllTrue(a + b, row, dialect) == AllTrue(b, row, dialect)
    ensures AllHold(b, row, dialect) ==> AllTrue(a + b, row, dialect) == AllTrue(a, row, dialect)
  {
    if a == [] {
      assert a + b == b;
      AllTrueMeansAllHold(b, row, dialect);
    } else {
      TrueClausesDecideNothing(a[1..], b, row, dialect);
      assert (a + b)[1..] == a[1..] + b;
      assert a[0] in a;
    }
  }

  // SQLite evaluates every operand a run compiles; only Postgres refuses an overflow.
  lemma {:induction false} SqliteEvaluates(e: Leaf, strict: bool, c: Ctx, row: Row)
    requires c.Valid() && WellTyped(row, c.schema) && c.dialect.Sqlite?
    requires CompileLeaf(e, strict, c).Some?
    ensures var op := CompileLeaf(e, strict, c).value; var cell := Evaluated(op.sql, row, c.dialect);
            cell.Got? && (CellFits(op.optype, cell.value) || (op.optype.IntegerOp? && cell.value.Real?))
  {
    match e
    case Arith(op, left, right) =>
      SqliteEvaluates(left, true, c, row);
      SqliteEvaluates(right, true, c, row);
    case _ =>
  }

  lemma {:induction false} SqliteAnswers(p: Pred, c: Ctx, row: Row)
    requires c.Valid() && WellTyped(row, c.schema) && c.dialect.Sqlite?
    requires CompilePred(p, c).Some?
    ensures Answer(CompilePred(p, c).value.sql, row, c.dialect).Got?
  {
    match p
    case Or(l, r) =>
      SqliteAnswers(l, c, row);
      SqliteAnswers(r, c, row);
    case And(l, r) =>
      SqliteAnswers(l, c, row);
      SqliteAnswers(r, c, row);
    case Not(q) => SqliteAnswers(q, c, row);
    case Compare(cmp, left, right) =>
      SqliteEvaluates(left, cmp.Ordering(), c, row);
      SqliteEvaluates(right, cmp.Ordering(), c, row);
    case Test(SignTest(_, receiver)) => SqliteEvaluates(receiver, true, c, row);
    case Test(Assigned(receiver, _)) => SqliteEvaluates(receiver, false, c, row);
  }

  lemma {:induction false} GivensNeverFault(givens: seq<Pred>, c: Ctx, row: Row, id: string, index: nat)
    requires c.Valid() && WellTyped(row, c.schema) && c.dialect.Sqlite?
    requires CompileAll(givens, c).Some?
    requires AllHold(GuardsOf(CompileAll(givens, c).value), row, c.dialect)
    ensures !Judge(givens, row, ForRow(c, id), index).Faults?
    decreases |givens|
  {
    if givens != [] {
      var first, rest := CompilePred(givens[0], c).value, CompileAll(givens[1..], c).value;
      assert CompileAll(givens, c).value == [first] + rest;
      assert GuardsOf([first] + rest) == first.guards + GuardsOf(rest);
      AllHoldSplit(first.guards, GuardsOf(rest), row, c.dialect);
      SqliteAnswers(givens[0], c, row);
      PredicateMeansTheSame(givens[0], c, row, id);
      GivensNeverFault(givens[1..], c, row, id, index + 1);
    }
  }

  lemma SqliteWrite(effect: Effect, c: Ctx, row: Row)
    requires c.Valid() && WellTyped(row, c.schema) && c.dialect.Sqlite?
    requires effect.target in c.schema.fields && CompileEffect(effect, c).Some?
    ensures Evaluated(CompileEffect(effect, c).value.sql, row, c.dialect).Got?
  {
    match effect.op
    case SetTo(Computed(e)) => SqliteEvaluates(e, true, c, row);
    case _ =>
  }

  lemma {:induction false} SqliteWrites(effects: seq<Effect>, c: Ctx, row: Row, candidate: Row)
    requires c.Valid() && WellTyped(row, c.schema) && c.dialect.Sqlite?
    requires (forall e :: e in effects ==> e.target in c.schema.fields) && CompileEffects(effects, c).Some?
    ensures Written(CompileEffects(effects, c).value, row, c.dialect, candidate).Got?
    decreases |effects|
  {
    hide CompileEffect, Evaluated;
    if effects != [] {
      var first, rest := CompileEffect(effects[0], c).value, CompileEffects(effects[1..], c).value;
      assert CompileEffects(effects, c).value == [first] + rest && ([first] + rest)[1..] == rest;
      SqliteWrite(effects[0], c, row);
      var cell := Evaluated(first.sql, row, c.dialect).value;
      SqliteWrites(effects[1..], c, row, candidate[first.column := ValueOf(cell)]);
    }
  }

  // On SQLite a row that meets every guard of the statement is saved or refused by its own dispatch,
  // whether the statement selects it or not: it never crashes.
  lemma GuardsKeepFromCrashing(c: Ctx, command: Command, query: seq<SqlPred>, row: Row, id: string)
    requires c.Valid() && WellFormed(command, c.schema) && WellTyped(row, c.schema) && c.dialect.Sqlite?
    requires var st := Compile(c, command, query, true); st.Some? && AllHold(st.value.guards, row, c.dialect)
    ensures !Dispatched(c.schema, command, row, ForRow(c, id), true).Crashed?
  {
    var st := Compile(c, command, query, true).value;
    var givens := CompileAll(command.givens, c).value;
    AllHoldSplit(WriteGuards(st.writes), GuardsOf(givens), row, c.dialect);
    GivensNeverFault(command.givens, c, row, id, 0);
    SqliteWrites(command.effects, c, row, row);
    WritesMeanTheSame(command.effects, c, row, id, row);
  }

  // Only a guard skips a row Ruby would save: with every guard met, a row the query answers but
  // the statement skips is not saved by a dispatch, and on SQLite it is refused, never a crash.
  lemma SkippedRowIsNotSaved(c: Ctx, command: Command, query: seq<SqlPred>, row: Row, id: string)
    requires c.Valid() && WellFormed(command, c.schema) && WellTyped(row, c.schema)
    requires var st := Compile(c, command, query, true);
             st.Some? && Selected(st.value, row, c.dialect) == Got(false)
             && AllHold(query, row, c.dialect) && AllHold(st.value.guards, row, c.dialect)
    ensures var verdict := Dispatched(c.schema, command, row, ForRow(c, id), true);
            !verdict.Saved? && (c.dialect.Sqlite? ==> verdict.Refused?)
  {
    var st := Compile(c, command, query, true).value;
    var givens := CompileAll(command.givens, c).value;
    AllHoldSplit(WriteGuards(st.writes), GuardsOf(givens), row, c.dialect);
    GivensPass(command.givens, c, row, id, 0);
    ConditionsMeanAdmissible(c, command, row);
    SkippedByRules(st, row, c.dialect);
    if c.dialect.Sqlite? {
      GivensNeverFault(command.givens, c, row, id, 0);
    }
  }

  lemma SkippedByRules(st: Statement, row: Row, dialect: Dialect)
    requires Selected(st, row, dialect) == Got(false)
    requires AllHold(st.query, row, dialect) && AllHold(st.guards, row, dialect)
    ensures AllTrue(st.conditions, row, dialect) != Got(true) || AllTrue(st.givens, row, dialect) == Got(false)
  {
    TrueClausesDecideNothing(st.query + st.conditions + st.givens, st.guards, row, dialect);
    assert st.query + st.conditions + st.givens == st.query + (st.conditions + st.givens);
    TrueClausesDecideNothing(st.query, st.conditions + st.givens, row, dialect);
    AllTrueMeansAllHold(st.conditions, row, dialect);
    TrueClausesDecideNothing(st.conditions, st.givens, row, dialect);
  }
}
