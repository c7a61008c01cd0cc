// Two small tables on which a run as one statement and a run row by row do part: one where a crash
// hides a row, one where the events come in another order.
module BulkSweepApart {
  import opened Wrappers
  import opened Expressions
  import opened Dispatch
  import opened SetTransform
  import opened SetTransformSoundness
  import opened Lists
  import opened SweepRows
  import opened BulkSweep

  const SCHEMA := Schema(map["n" := Field(Integer, [])], None, [])
  const CTX := Ctx(SCHEMA, "id", map[], Sqlite)
  const RESET := [Effect("n", SetTo(Literal(Int(1))))]
  const ABOVE := Compare(Gt, Lookup("n"), IntLit(0))
  const UNSET_OR_ABOVE := Or(Compare(Eq, Lookup("n"), NilLit), ABOVE)

  const UNSET: Row := map["n" := Nil]
  const FIVE: Row := map["n" := Int(5)]
  const ONE: Row := map["n" := Int(1)]
  const TABLE: map<string, Row> := map["a" := UNSET, "b" := FIVE]
  const WORLD := World(TABLE, [], [])

  // Sets `n` to one wherever `given` holds.
  function Reset(given: Pred): Job {
    Job(CTX, Command([given], None, [], RESET, [], ["Reset"]), [], true)
  }

  lemma ResetIsValid(given: Pred)
    ensures Reset(given).Valid() && AnswersQuery(Reset(given), TABLE, ["a", "b"])
  {
    var ids := ["a", "b"];
    assert ids[0] == "a" && ids[1] == "b" && "a" != "b";
    assert forall id :: id in ids <==> id == "a" || id == "b";
    assert forall row :: AllHold([], row, Sqlite);
  }

  const ABOVE_SQL := Ordered(Gt, Column("n"), Bind(Whole(0)))
  const UNSET_SQL := Matches(Column("n"), Bind(Null), false)

  // The one guard of either command: `n` is compared in order, so it must be set.
  const GUARD := NotNull(Column("n"))

  function StatementOf(given: SqlPred): Statement {
    Statement([], [], [given], [GUARD], [Write("n", Bind(Whole(1)), [])], [], "")
  }

  lemma AboveCompiles()
    ensures CompilePred(ABOVE, CTX) == Some(Clause(ABOVE_SQL, [GUARD]))
    ensures CompilePred(UNSET_OR_ABOVE, CTX) == Some(Clause(SqlOr(UNSET_SQL, ABOVE_SQL), [GUARD]))
  {
    assert CompileLeaf(Lookup("n"), true, CTX) == Some(Operand(Column("n"), IntegerOp, [GUARD]));
    assert CompileLeaf(Lookup("n"), false, CTX) == Some(Operand(Column("n"), IntegerOp, []));
    assert CompileLeaf(IntLit(0), true, CTX) == Some(Operand(Bind(Whole(0)), IntegerOp, []));
    assert [GUARD] + [] == [GUARD];
    assert CompilePred(ABOVE, CTX) == Some(Clause(ABOVE_SQL, [GUARD]));
    assert CompileLeaf(NilLit, false, CTX) == Some(Operand(Bind(Null), NullOp, []));
    var none: seq<SqlPred> := [];
    assert none + none == none;
    assert CompilePred(Compare(Eq, Lookup("n"), NilLit), CTX) == Some(Clause(UNSET_SQL, none));
    assert [] + [GUARD] == [GUARD];
  }

  lemma ResetCompiles(given: Pred, sql: SqlPred)
    requires CompilePred(given, CTX) == Some(Clause(sql, [GUARD]))
    ensures WellFormed(Reset(given).command, SCHEMA)
    ensures Compile(CTX, Reset(given).command, [], true) == Some(StatementOf(sql))
  {
    ResetIsValid(given);
    var clause := Clause(sql, [GUARD]);
    assert CompileAll([given], CTX) == Some([clause]) by {
      assert [given][1..] == [] && [clause] + [] == [clause];
    }
    var write := Write("n", Bind(Whole(1)), []);
    assert CompileEffects(RESET, CTX) == Some([write]) by {
      assert RESET[1..] == [] && [write] + [] == [write];
      assert CompileEffect(RESET[0], CTX) == Some(write);
    }
    assert [clause][1..] == [] && [write][1..] == [];
    var none: seq<SqlPred> := [];
    var noWrites: seq<Write> := [];
    assert WriteGuards(noWrites) == none && none + none == none;
    assert WriteGuards([write]) == none;
    var noClauses: seq<Clause> := [];
    assert Sqls(noClauses) == none && GuardsOf(noClauses) == none;
    assert [sql] + none == [sql] && [GUARD] + none == [GUARD];
    assert Sqls([clause]) == [sql] && GuardsOf([clause]) == [GUARD];
    assert none + [GUARD] == [GUARD];
  }

  lemma ResetWhere(sql: SqlPred, row: Row)
    requires Answer(sql, row, Sqlite).Got? && Answer(GUARD, row, Sqlite).Got?
    ensures Selected(StatementOf(sql), row, Sqlite)
         == Got(Answer(sql, row, Sqlite) == Got(True) && Answer(GUARD, row, Sqlite) == Got(True))
  {
    hide Answer;
    var none: seq<SqlPred> := [];
    assert StatementOf(sql).Where() == [sql, GUARD] && [sql, GUARD][1..] == [GUARD] && [GUARD][1..] == none;
    assert AllTrue(none, row, Sqlite) == Got(true);
    assert AllTrue([GUARD], row, Sqlite) == Got(Answer(GUARD, row, Sqlite) == Got(True));
  }

  lemma ResetWrites(sql: SqlPred)
    ensures Updated(StatementOf(sql), FIVE, Sqlite) == Got(ONE)
  {
    var st := StatementOf(sql);
    assert st.writes[1..] == [];
    assert FIVE["n" := Int(1)] == ONE;
  }

  // The row with `n` unset is skipped, the other updated.
  lemma ResetSelects(sql: SqlPred)
    requires Answer(sql, UNSET, Sqlite).Got? && Answer(sql, FIVE, Sqlite) == Got(True)
    ensures var st := StatementOf(sql);
            && Updates(st, Sqlite, TABLE, ["b"])
            && Rewritten(st, Sqlite, TABLE) == map["a" := UNSET, "b" := ONE]
  {
    assert Answer(GUARD, UNSET, Sqlite) == Got(False) && Answer(GUARD, FIVE, Sqlite) == Got(True);
    hide Answer, Updated, Selected, StatementOf, UNSET, FIVE, ONE;
    ResetWhere(sql, UNSET);
    ResetWhere(sql, FIVE);
    ResetWrites(sql);
    assert forall id :: id in ["b"] <==> id == "b";
    assert "a" != "b";
  }

  lemma AboveAnswers()
    ensures Answer(ABOVE_SQL, UNSET, Sqlite) == Got(Unknown) && Answer(ABOVE_SQL, FIVE, Sqlite) == Got(True)
    ensures Answer(SqlOr(UNSET_SQL, ABOVE_SQL), UNSET, Sqlite) == Got(True)
    ensures Answer(SqlOr(UNSET_SQL, ABOVE_SQL), FIVE, Sqlite) == Got(True)
  {
    assert Evaluated(Column("n"), UNSET, Sqlite) == Got(Null) && Evaluated(Column("n"), FIVE, Sqlite) == Got(Whole(5));
    assert Evaluated(Bind(Whole(0)), UNSET, Sqlite) == Got(Whole(0)) == Evaluated(Bind(Whole(0)), FIVE, Sqlite);
    assert Answer(UNSET_SQL, UNSET, Sqlite) == Got(True) && Answer(UNSET_SQL, FIVE, Sqlite) == Got(False);
  }

  // Row by row the unset row crashes the run before the other is reached; the statement has set the
  // other by then.
  lemma CrashHidesARow()
    ensures Ran(Reset(ABOVE), StatementOf(ABOVE_SQL), WORLD, ["a", "b"], ["b"])
    ensures RowByRow(Reset(ABOVE), WORLD, ["a", "b"]) == (WORLD, Crash("a"))
    ensures AsStatement(Reset(ABOVE), StatementOf(ABOVE_SQL), WORLD, ["a", "b"], ["b"]).0.rows
            == map["a" := UNSET, "b" := ONE]
  {
    ResetIsValid(ABOVE);
    AboveCompiles();
    ResetCompiles(ABOVE, ABOVE_SQL);
    AboveAnswers();
    ResetSelects(ABOVE_SQL);
    var job, st := Reset(ABOVE), StatementOf(ABOVE_SQL);
    UnsetCrashes();
    var committed := Committed(job, st, WORLD, ["a", "b"], ["b"]);
    hide Compile, Updates, Rewritten, Dispatched;
    assert "a" !in MembersOf(["b"]);
    assert ByHand(job, committed, ["a", "b"], MembersOf(["b"])) == (committed, Crash("a"));
  }

  lemma UnsetCrashes()
    ensures VerdictOf(Reset(ABOVE), TABLE, "a") == Crashed
  {
    UnsetFaults();
    assert Judge([ABOVE], UNSET, ForRow(CTX, "a")) == Faults;
  }

  lemma UnsetFaults()
    ensures Holds(ABOVE, UNSET, ForRow(CTX, "a")) == Fault
  {
    assert "n" != "id";
    assert Interpret(Lookup("n"), UNSET, ForRow(CTX, "a")) == Ok(Nil);
    assert Interpret(IntLit(0), UNSET, ForRow(CTX, "a")) == Ok(Int(0));
    assert LessThan(Nil, Int(0)).Fault?;
  }

  // Nothing crashes, but the unset row is sent by hand and comes first: row by row announces it first,
  // the statement last.
  lemma EventsComeInAnotherOrder()
    ensures Ran(Reset(UNSET_OR_ABOVE), StatementOf(SqlOr(UNSET_SQL, ABOVE_SQL)), WORLD, ["a", "b"], ["b"])
    ensures RowByRow(Reset(UNSET_OR_ABOVE), WORLD, ["a", "b"]).1.Answered?
    ensures AsStatement(Reset(UNSET_OR_ABOVE), StatementOf(SqlOr(UNSET_SQL, ABOVE_SQL)), WORLD, ["a", "b"],
            ["b"]).0.events
         != RowByRow(Reset(UNSET_OR_ABOVE), WORLD, ["a", "b"]).0.events
  {
    hide RowByRow, AsStatement, Compile, Updates, Rewritten, Dispatched, EventsFor, Judged, Sent;
    var job, st, ids := Reset(UNSET_OR_ABOVE), StatementOf(SqlOr(UNSET_SQL, ABOVE_SQL)), ["a", "b"];
    ResetIsValid(UNSET_OR_ABOVE);
    AboveCompiles();
    ResetCompiles(UNSET_OR_ABOVE, SqlOr(UNSET_SQL, ABOVE_SQL));
    AboveAnswers();
    ResetSelects(SqlOr(UNSET_SQL, ABOVE_SQL));
    UpdatedAreSaved(job, st, WORLD, ids, ["b"], "b");
    UnsetIsReset();
    RowByRowIsJudged(job, WORLD, ids);
    BothAreSent(FatesOf(job, TABLE, ids));
    EventsInOrderUnlessHandFirst(job, st, WORLD, ids, ["b"]);
    assert "a" !in MembersOf(["b"]) && "b" in MembersOf(["b"]);
    assert ids[0] !in MembersOf(["b"]) && ids[1] in MembersOf(["b"]);
  }

  lemma BothAreSent(fates: Fates)
    requires FateOf(fates, "a").Saved? && FateOf(fates, "b").Saved?
    ensures Judged(fates, ["a", "b"]).Answered? && Sent(fates, ["a", "b"], {}) == ["a", "b"]
  {
    assert ["a", "b"][1..] == ["b"] && ["b"][1..] == [];
    assert Judged(fates, ["b"]).Answered? && Sent(fates, ["b"], {}) == ["b"];
  }

  lemma UnsetIsReset()
    ensures VerdictOf(Reset(UNSET_OR_ABOVE), TABLE, "a") == Saved(ONE)
  {
    var job, args := Reset(UNSET_OR_ABOVE), ForRow(CTX, "a");
    assert "n" != "id";
    assert Interpret(Lookup("n"), UNSET, args) == Ok(Nil) && Interpret(NilLit, UNSET, args) == Ok(Nil);
    assert Holds(Compare(Eq, Lookup("n"), NilLit), UNSET, args) == Ok(true);
    assert Holds(UNSET_OR_ABOVE, UNSET, args) == Ok(true);
    assert Judge([UNSET_OR_ABOVE], UNSET, args) == Pass by { assert [UNSET_OR_ABOVE][1..] == []; }
    assert UNSET["n" := Int(1)] == ONE;
    assert Effected(SCHEMA, RESET[0], UNSET, args) == Put(Int(1));
    assert RESET[1..] == [];
    assert ApplyEffects(SCHEMA, RESET, UNSET, args, UNSET) == Saved(ONE);
  }
}
