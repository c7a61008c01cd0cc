// Which commands are said as one statement, and which rows of its query that statement updates on SQLite:
// those a dispatch would save whose operands all answer, and no others.
module CompiledForms {
  import opened Wrappers
  import opened Expressions
  import opened Dispatch
  import opened SetTransform
  import opened SetTransformSoundness

  // ----- Which commands compile -----

  // The column type of an operand: a literal's, an argument's, a field's, or of a sum, a difference or a
  // product of whole numbers. The row's own key has none, and neither has a boolean.
  ghost function TypeIn(e: Leaf, c: Ctx): Option<OperandType> {
    match e
    case IntLit(_) => Some(IntegerOp)
    case FloatLit(_) => Some(FloatOp)
    case StrLit(_) => Some(StringOp)
    case NilLit => Some(NullOp)
    case Lookup(name) =>
      if name == c.key then None
      else if name in c.defaults then
        (match c.defaults[name]
         case Nil => Some(NullOp) case Bool(_) => None case Int(_) => Some(IntegerOp)
         case Float(_) => Some(FloatOp) case Str(_) => Some(StringOp))
      else if c.schema.lifecycle == Some(name) then Some(StringOp)
      else if name in c.schema.fields then Some(ColumnType(c.schema.fields[name].kind))
      else None
    case Arith(op, left, right) =>
      if op != Div && TypeIn(left, c) == Some(IntegerOp) && TypeIn(right, c) == Some(IntegerOp)
      then Some(IntegerOp) else None
    case _ => None
  }

  function ColumnType(kind: Kind): OperandType {
    match kind case Integer => IntegerOp case Decimal => FloatOp case Textual => StringOp
  }

  predicate Numbers(t: Option<OperandType>) { t == Some(IntegerOp) || t == Some(FloatOp) }

  // Two numbers or two texts.
  predicate OneOrder(t: Option<OperandType>, u: Option<OperandType>) {
    (Numbers(t) && Numbers(u)) || (t == Some(StringOp) && u == Some(StringOp))
  }

  ghost predicate Compilable(p: Pred, c: Ctx) {
    match p
    case Or(l, r) => Compilable(l, c) && Compilable(r, c)
    case And(l, r) => Compilable(l, c) && Compilable(r, c)
    case Not(q) => Compilable(q, c)
    case Compare(cmp, left, right) =>
      var t, u := TypeIn(left, c), TypeIn(right, c);
      OneOrder(t, u) || (cmp in {Eq, Ne} && t.Some? && u.Some? && (t == Some(NullOp) || u == Some(NullOp)))
    case Test(SignTest(_, receiver)) => Numbers(TypeIn(receiver, c))
    case Test(Assigned(receiver, _)) => TypeIn(receiver, c).Some?
    case Test(_) => false
  }

  // A value given alike for every row.
  ghost predicate GivenAlike(source: Source, c: Ctx, v: Value) {
    match source
    case Literal(w) => w == v
    case Argument(name) => name != c.key && v == (if name in c.defaults then c.defaults[name] else Nil)
    case _ => false
  }

  ghost predicate Settable(effect: Effect, c: Ctx)
    requires effect.target in c.schema.fields
  {
    var field := c.schema.fields[effect.target];
    field.checks == [] &&
    match effect.op
    case SetTo(State(name)) => name in c.schema.fields && c.schema.fields[name].kind == field.kind
    case SetTo(Computed(e)) => TypeIn(e, c) == Some(ColumnType(field.kind))
    case SetTo(source) => exists v :: GivenAlike(source, c, v) && Conforms(field.kind, v)
    case Increment(source) => field.kind == Integer && exists n :: GivenAlike(source, c, Int(n))
    case Decrement(source) => field.kind == Integer && exists n :: GivenAlike(source, c, Int(n))
    case _ => false
  }

  lemma {:induction false} LeafCompiles(e: Leaf, strict: bool, c: Ctx)
    ensures CompileLeaf(e, strict, c).Some? <==> TypeIn(e, c).Some? && (strict ==> TypeIn(e, c) != Some(NullOp))
    ensures CompileLeaf(e, strict, c).Some? ==> Some(CompileLeaf(e, strict, c).value.optype) == TypeIn(e, c)
  {
    match e
    case Arith(_, left, right) =>
      LeafCompiles(left, true, c);
      LeafCompiles(right, true, c);
    case _ =>
  }

  lemma {:induction false} PredCompiles(p: Pred, c: Ctx)
    ensures CompilePred(p, c).Some? <==> Compilable(p, c)
  {
    match p
    case Or(l, r) =>
      PredCompiles(l, c);
      PredCompiles(r, c);
    case And(l, r) =>
      PredCompiles(l, c);
      PredCompiles(r, c);
    case Not(q) => PredCompiles(q, c);
    case Compare(cmp, left, right) =>
      hide CompileLeaf, TypeIn;
      LeafCompiles(left, cmp.Ordering(), c);
      LeafCompiles(right, cmp.Ordering(), c);
    case Test(SignTest(_, receiver)) =>
      hide CompileLeaf, TypeIn;
      LeafCompiles(receiver, true, c);
    case Test(Assigned(receiver, _)) =>
      hide CompileLeaf, TypeIn;
      LeafCompiles(receiver, false, c);
    case Test(_) =>
  }

  lemma {:induction false} AllCompile(ps: seq<Pred>, c: Ctx)
    ensures CompileAll(ps, c).Some? <==> forall p :: p in ps ==> Compilable(p, c)
  {
    if ps != [] {
      hide CompilePred, Compilable;
      PredCompiles(ps[0], c);
      AllCompile(ps[1..], c);
      assert ps == [ps[0]] + ps[1..] && ps[0] in ps;
    }
  }

  lemma ConstantIs(source: Source, c: Ctx, v: Value)
    ensures Constant(source, c) == Some(v) <==> GivenAlike(source, c, v)
  {
  }

  lemma EffectCompiles(effect: Effect, c: Ctx)
    requires effect.target in c.schema.fields
    ensures CompileEffect(effect, c).Some? <==> Settable(effect, c)
  {
    hide CompileLeaf, TypeIn;
    forall source, v ensures Constant(source, c) == Some(v) <==> GivenAlike(source, c, v) {
      ConstantIs(source, c, v);
    }
    match effect.op
    case SetTo(Computed(e)) => LeafCompiles(e, true, c);
    case SetTo(State(_)) =>
    case SetTo(source) =>
      if Constant(source, c).Some? {
        assert GivenAlike(source, c, Constant(source, c).value);
      }
    case Increment(source) => StepCompiles(effect.target, source, 1, c);
    case Decrement(source) => StepCompiles(effect.target, source, -1, c);
    case _ =>
  }

  lemma StepCompiles(target: string, source: Source, sign: int, c: Ctx)
    requires target in c.schema.fields
    ensures CompileStep(target, source, sign, c).Some? <==>
            c.schema.fields[target].kind == Integer && exists n :: GivenAlike(source, c, Int(n))
  {
    forall v ensures Constant(source, c) == Some(v) <==> GivenAlike(source, c, v) {
      ConstantIs(source, c, v);
    }
    if Constant(source, c).Some? && Constant(source, c).value.Int? {
      assert GivenAlike(source, c, Int(Constant(source, c).value.i));
    }
  }

  lemma {:induction false} EffectsCompile(effects: seq<Effect>, c: Ctx)
    requires forall e :: e in effects ==> e.target in c.schema.fields
    ensures CompileEffects(effects, c).Some? <==> forall e :: e in effects ==> Settable(e, c)
  {
    if effects != [] {
      hide CompileEffect, Settable;
      EffectCompiles(effects[0], c);
      EffectsCompile(effects[1..], c);
      assert effects == [effects[0]] + effects[1..] && effects[0] in effects;
    }
  }

  // A command is said as one statement exactly when the caller holds its role, nothing is checked on the
  // settled record, and every given and every effect has a column form.
  lemma CompilesExactly(c: Ctx, command: Command, query: seq<SqlPred>, roleHeld: bool)
    requires WellFormed(command, c.schema)
    ensures Compile(c, command, query, roleHeld).Some? <==>
            && roleHeld && command.ensuring == [] && c.schema.invariants == []
            && (forall p :: p in command.givens ==> Compilable(p, c))
            && (forall e :: e in command.effects ==> Settable(e, c))
  {
    hide CompilePred, CompileEffect, Compilable, Settable;
    AllCompile(command.givens, c);
    EffectsCompile(command.effects, c);
  }

  // ----- Which rows its guards let through -----

  // Something, and not nothing.
  ghost predicate GivesSome(e: Leaf, row: Row, args: Env) {
    exists v :: Interpret(e, row, args) == Ok(v) && v != Nil
  }

  ghost predicate OperandsGive(p: Pred, row: Row, args: Env) {
    match p
    case Or(l, r) => OperandsGive(l, row, args) && OperandsGive(r, row, args)
    case And(l, r) => OperandsGive(l, row, args) && OperandsGive(r, row, args)
    case Not(q) => OperandsGive(q, row, args)
    case Compare(cmp, left, right) =>
      // An equation may be asked of nothing at all, unless that comes of reckoning.
      ((cmp in {Eq, Ne} && !left.Arith?) || GivesSome(left, row, args))
      && ((cmp in {Eq, Ne} && !right.Arith?) || GivesSome(right, row, args))
    case Test(SignTest(_, receiver)) => GivesSome(receiver, row, args)
    case Test(Assigned(receiver, _)) => receiver.Arith? ==> GivesSome(receiver, row, args)
    case Test(_) => true
  }

  // What an effect reads: a computed value, and for a step the field itself, with a result that fits.
  ghost predicate EffectReads(schema: Schema, effect: Effect, row: Row, args: Env)
    requires effect.target in schema.fields
  {
    match effect.op
    case SetTo(Computed(e)) => GivesSome(e, row, args)
    case Increment(_) => Held(row, effect.target) != Nil && Effected(schema, effect, row, args).Put?
    case Decrement(_) => Held(row, effect.target) != Nil && Effected(schema, effect, row, args).Put?
    case _ => true
  }

  lemma {:induction false} LeafGuards(e: Leaf, strict: bool, c: Ctx, row: Row, id: string)
    requires c.Valid() && WellTyped(row, c.schema) && c.dialect.Sqlite? && CompileLeaf(e, strict, c).Some?
    ensures AllHold(CompileLeaf(e, strict, c).value.guards, row, c.dialect) <==>
            (strict || e.Arith? ==> GivesSome(e, row, ForRow(c, id)))
  {
    var op := CompileLeaf(e, strict, c).value;
    var args := ForRow(c, id);
    if AllHold(op.guards, row, c.dialect) {
      SqliteEvaluates(e, strict, c, row);
      OperandMeansTheSame(e, strict, c, row, id);
      if e.Arith? {
        OperandMeansTheSame(e, true, c, row, id);
      }
    } else if e.Arith? && GivesSome(e, row, args) {
      ReckonedGuards(e, c, row, id);
    }
  }

  // A sum that dispatch reckons meets its guards.
  lemma {:induction false} ReckonedGuards(e: Leaf, c: Ctx, row: Row, id: string)
    requires c.Valid() && WellTyped(row, c.schema) && c.dialect.Sqlite? && CompileLeaf(e, true, c).Some?
    requires GivesSome(e, row, ForRow(c, id))
    ensures AllHold(CompileLeaf(e, true, c).value.guards, row, c.dialect)
  {
    if e.Arith? {
      hide Combine, Computes, WellTyped, AllHold, Interpret, GivesSome;
      var l, r := CompileLeaf(e.left, true, c).value, CompileLeaf(e.right, true, c).value;
      var sql := Arithmetic(e.op, l.sql, r.sql);
      ReckonsOnNumbers(e, row, ForRow(c, id));
      ReckonedGuards(e.left, c, row, id);
      ReckonedGuards(e.right, c, row, id);
      WholeOperand(e.left, c, row, id);
      WholeOperand(e.right, c, row, id);
      SumFits(e.op, Evaluated(l.sql, row, c.dialect).value, Evaluated(r.sql, row, c.dialect).value);
      AllHoldSplit(l.guards + r.guards, IntegerGuard(sql, c.dialect), row, c.dialect);
      AllHoldSplit(l.guards, r.guards, row, c.dialect);
      WholeHolds(sql, row);
    }
  }

  lemma WholeHolds(sql: SqlExpr, row: Row)
    requires Evaluated(sql, row, Sqlite).Got? && Evaluated(sql, row, Sqlite).value.Whole?
    ensures AllHold(IntegerGuard(sql, Sqlite), row, Sqlite)
  {
  }

  lemma WholeOperand(e: Leaf, c: Ctx, row: Row, id: string)
    requires c.Valid() && WellTyped(row, c.schema) && c.dialect.Sqlite? && CompileLeaf(e, true, c).Some?
    requires CompileLeaf(e, true, c).value.optype == IntegerOp
    requires AllHold(CompileLeaf(e, true, c).value.guards, row, c.dialect)
    ensures var cell := Evaluated(CompileLeaf(e, true, c).value.sql, row, c.dialect);
            cell.Got? && cell.value.Whole? && Interpret(e, row, ForRow(c, id)) == Ok(ValueOf(cell.value))
  {
    hide CompileLeaf, Evaluated, Interpret, AllHold, WellTyped;
    SqliteEvaluates(e, true, c, row);
    OperandMeansTheSame(e, true, c, row, id);
  }

  lemma ReckonsOnNumbers(e: Leaf, row: Row, args: Env)
    requires e.Arith? && GivesSome(e, row, args)
    ensures GivesSome(e.left, row, args) && GivesSome(e.right, row, args)
    ensures Combine(e.op, Interpret(e.left, row, args).value, Interpret(e.right, row, args).value).Ok?
  {
    var l, r := Interpret(e.left, row, args), Interpret(e.right, row, args);
    assert l.Ok? && r.Ok?;
    assert Numeric(l.value) && Numeric(r.value);
  }

  lemma SumFits(op: ArithOp, a: Cell, b: Cell)
    requires op != Div && a.Whole? && b.Whole? && Combine(op, ValueOf(a), ValueOf(b)).Ok?
    ensures Computes(op, a, b, Sqlite).Got? && Computes(op, a, b, Sqlite).value.Whole?
  {
  }

  lemma {:induction false} PredGuards(p: Pred, c: Ctx, row: Row, id: string)
    requires c.Valid() && WellTyped(row, c.schema) && c.dialect.Sqlite? && CompilePred(p, c).Some?
    ensures AllHold(CompilePred(p, c).value.guards, row, c.dialect) <==> OperandsGive(p, row, ForRow(c, id))
  {
    hide CompileLeaf, GivesSome, AllHold, WellTyped;
    match p
    case Or(l, r) =>
      AllHoldSplit(CompilePred(l, c).value.guards, CompilePred(r, c).value.guards, row, c.dialect);
      PredGuards(l, c, row, id);
      PredGuards(r, c, row, id);
    case And(l, r) =>
      AllHoldSplit(CompilePred(l, c).value.guards, CompilePred(r, c).value.guards, row, c.dialect);
      PredGuards(l, c, row, id);
      PredGuards(r, c, row, id);
    case Not(q) => PredGuards(q, c, row, id);
    case Compare(cmp, left, right) =>
      var l, r := CompileLeaf(left, cmp.Ordering(), c).value, CompileLeaf(right, cmp.Ordering(), c).value;
      AllHoldSplit(l.guards, r.guards, row, c.dialect);
      LeafGuards(left, cmp.Ordering(), c, row, id);
      LeafGuards(right, cmp.Ordering(), c, row, id);
    case Test(SignTest(_, receiver)) => LeafGuards(receiver, true, c, row, id);
    case Test(Assigned(receiver, _)) => LeafGuards(receiver, false, c, row, id);
  }

  lemma {:induction false} GivensGuards(givens: seq<Pred>, c: Ctx, row: Row, id: string)
    requires c.Valid() && WellTyped(row, c.schema) && c.dialect.Sqlite? && CompileAll(givens, c).Some?
    ensures AllHold(GuardsOf(CompileAll(givens, c).value), row, c.dialect) <==>
            forall p :: p in givens ==> OperandsGive(p, row, ForRow(c, id))
    decreases |givens|
  {
    if givens != [] {
      hide CompilePred, OperandsGive, AllHold, WellTyped;
      var first, rest := CompilePred(givens[0], c).value, CompileAll(givens[1..], c).value;
      assert CompileAll(givens, c).value == [first] + rest;
      assert GuardsOf([first] + rest) == first.guards + GuardsOf(rest);
      AllHoldSplit(first.guards, GuardsOf(rest), row, c.dialect);
      PredGuards(givens[0], c, row, id);
      GivensGuards(givens[1..], c, row, id);
      assert givens == [givens[0]] + givens[1..] && givens[0] in givens;
    }
  }

  lemma EffectGuards(effect: Effect, c: Ctx, row: Row, id: string)
    requires c.Valid() && WellTyped(row, c.schema) && c.dialect.Sqlite?
    requires effect.target in c.schema.fields && CompileEffect(effect, c).Some?
    ensures AllHold(CompileEffect(effect, c).value.guards, row, c.dialect) <==>
            EffectReads(c.schema, effect, row, ForRow(c, id))
  {
    match effect.op
    case SetTo(Computed(e)) =>
      var operand := CompileLeaf(e, true, c).value;
      LeafGuards(e, true, c, row, id);
      AllHoldSplit(operand.guards, [NotNull(operand.sql)], row, c.dialect);
      if AllHold(operand.guards, row, c.dialect) {
        SqliteEvaluates(e, true, c, row);
        OperandMeansTheSame(e, true, c, row, id);
      }
    case Increment(source) => StepGuards(effect.target, source, 1, c, row, id);
    case Decrement(source) => StepGuards(effect.target, source, -1, c, row, id);
    case _ =>
  }

  lemma StepGuards(target: string, source: Source, sign: int, c: Ctx, row: Row, id: string)
    requires c.Valid() && WellTyped(row, c.schema) && c.dialect.Sqlite? && (sign == 1 || sign == -1)
    requires target in c.schema.fields && c.schema.fields[target].Writable()
    requires CompileStep(target, source, sign, c).Some?
    ensures AllHold(CompileStep(target, source, sign, c).value.guards, row, c.dialect) <==>
            Held(row, target) != Nil
            && Stepped(c.schema, target, if sign == 1 then Add else Sub, row, source, ForRow(c, id)).Put?
  {
    var w := CompileStep(target, source, sign, c).value;
    assert w.guards == [NotNull(Column(target)), IsInteger(w.sql)];
    assert AllHold(w.guards, row, c.dialect) <==>
           Answer(w.guards[0], row, c.dialect) == Got(True) && Answer(w.guards[1], row, c.dialect) == Got(True);
    var current, n := Held(row, target), Constant(source, c).value.i;
    assert Amount(source, ForRow(c, id)) == Some(Int(n));
    assert current.Nil? || current.Int?;
    if current.Int? {
      var sum := if sign == 1 then current.i + n else current.i - n;
      assert current.i + sign * n == sum;
      assert Evaluated(w.sql, row, c.dialect) == Got(if Fits64(sum) then Whole(sum) else Real(sum as real));
      assert Combine(if sign == 1 then Add else Sub, current, Int(n)) == if Fits64(sum) then Ok(Int(sum)) else Fault;
      assert Coerced(c.schema, target, Int(sum)) == Put(Int(sum));
    }
  }

  lemma {:induction false} EffectsGuards(effects: seq<Effect>, c: Ctx, row: Row, id: string)
    requires c.Valid() && WellTyped(row, c.schema) && c.dialect.Sqlite?
    requires (forall e :: e in effects ==> e.target in c.schema.fields) && CompileEffects(effects, c).Some?
    ensures AllHold(WriteGuards(CompileEffects(effects, c).value), row, c.dialect) <==>
            forall e :: e in effects ==> EffectReads(c.schema, e, row, ForRow(c, id))
    decreases |effects|
  {
    if effects != [] {
      hide CompileEffect, EffectReads, AllHold, WellTyped;
      var first, rest := CompileEffect(effects[0], c).value, CompileEffects(effects[1..], c).value;
      assert CompileEffects(effects, c).value == [first] + rest;
      assert WriteGuards([first] + rest) == first.guards + WriteGuards(rest);
      AllHoldSplit(first.guards, WriteGuards(rest), row, c.dialect);
      EffectGuards(effects[0], c, row, id);
      EffectsGuards(effects[1..], c, row, id);
      assert effects == [effects[0]] + effects[1..] && effects[0] in effects;
    }
  }

  // ----- Which rows the statement updates -----

  lemma {:induction false} GivensSelect(givens: seq<Pred>, c: Ctx, row: Row, id: string)
    requires c.Valid() && WellTyped(row, c.schema) && c.dialect.Sqlite? && CompileAll(givens, c).Some?
    requires AllHold(GuardsOf(CompileAll(givens, c).value), row, c.dialect)
    requires forall p :: p in givens ==> Holds(p, row, ForRow(c, id)) == Ok(true)
    ensures AllHold(Sqls(CompileAll(givens, c).value), row, c.dialect)
    decreases |givens|
  {
    if givens != [] {
      hide CompilePred, Holds, WellTyped, AllHold;
      var first, rest := CompilePred(givens[0], c).value, CompileAll(givens[1..], c).value;
      assert CompileAll(givens, c).value == [first] + rest;
      assert GuardsOf([first] + rest) == first.guards + GuardsOf(rest);
      assert Sqls([first] + rest) == [first.sql] + Sqls(rest);
      AllHoldSplit(first.guards, GuardsOf(rest), row, c.dialect);
      AllHoldSplit([first.sql], Sqls(rest), row, c.dialect);
      assert givens == [givens[0]] + givens[1..] && givens[0] in givens;
      SqliteAnswers(givens[0], c, row);
      PredicateMeansTheSame(givens[0], c, row, id);
      OneHolds(first.sql, row, c.dialect);
      GivensSelect(givens[1..], c, row, id);
    }
  }

  lemma OneHolds(p: SqlPred, row: Row, dialect: Dialect)
    requires Answer(p, row, dialect) == Got(True)
    ensures AllHold([p], row, dialect)
  {
  }

  // On SQLite the statement updates exactly the rows of its query that a dispatch saves and whose operands
  // all answer something; every other row of the query is left to be dispatched by hand.
  lemma UpdatedExactly(c: Ctx, command: Command, query: seq<SqlPred>, row: Row, id: string)
    requires c.Valid() && WellFormed(command, c.schema) && WellTyped(row, c.schema) && c.dialect.Sqlite?
    requires Compile(c, command, query, true).Some?
    ensures Selected(Compile(c, command, query, true).value, row, c.dialect) == Got(true) <==>
            && AllHold(query, row, c.dialect)
            && Dispatched(c.schema, command, row, ForRow(c, id), true).Saved?
            && (forall p :: p in command.givens ==> OperandsGive(p, row, ForRow(c, id)))
            && (forall e :: e in command.effects ==> EffectReads(c.schema, e, row, ForRow(c, id)))
  {
    hide Dispatched, Selected, CompileAll, CompileEffects, OperandsGive, EffectReads, WellTyped, AllHold, Written;
    var st := Compile(c, command, query, true).value;
    var givens, writes := CompileAll(command.givens, c).value, CompileEffects(command.effects, c).value;
    var args := ForRow(c, id);
    WhereHolds(st, row, c.dialect);
    AllHoldSplit(WriteGuards(writes), GuardsOf(givens), row, c.dialect);
    GivensGuards(command.givens, c, row, id);
    EffectsGuards(command.effects, c, row, id);
    if Selected(st, row, c.dialect) == Got(true) {
      SqliteWrites(command.effects, c, row, row);
      UpdatedRowIsSaved(c, command, query, row, id);
    } else if Dispatched(c.schema, command, row, args, true).Saved? && AllHold(st.guards, row, c.dialect) {
      DispatchedPasses(c.schema, command, row, args, true);
      JudgePasses(command.givens, row, args, 0);
      GivensSelect(command.givens, c, row, id);
      ConditionsMeanAdmissible(c, command, row);
      AllTrueMeansAllHold(st.conditions, row, c.dialect);
    }
  }
}
