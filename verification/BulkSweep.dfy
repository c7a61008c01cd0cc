// A bulk run: one command sent to every row a query answers, either row by row or as one UPDATE
// with the rows it skipped dispatched by hand, and how far the two agree.
module BulkSweep {
  import opened Wrappers
  import opened Expressions
  import opened Dispatch
  import opened SetTransform
  import opened SetTransformSoundness
  import opened Lists
  import opened SweepRows

  datatype Job = Job(c: Ctx, command: Command, query: seq<SqlPred>, roleHeld: bool) {
    ghost predicate Valid() { c.Valid() && WellFormed(command, c.schema) }
  }

  // What a run leaves behind: the records, the journal and the event log.
  datatype World = World(rows: map<string, Row>, journal: seq<Entry>, events: seq<Event>)

  function VerdictOf(job: Job, rows: map<string, Row>, id: string): Verdict
    requires WellFormed(job.command, job.c.schema)
  {
    if id in rows then Dispatched(job.c.schema, job.command, rows[id], ForRow(job.c, id), job.roleHeld)
    else Refused(NotFound)
  }

  function Emitted(job: Job, id: string): seq<Event> {
    seq(|job.command.emits|, i requires 0 <= i < |job.command.emits| =>
        Event(job.command.emits[i], id, ForRow(job.c, id)))
  }

  // One row's dispatch: a saved record is written, journalled and announced; anything else
  // leaves the world as it was.
  function AfterDispatch(job: Job, w: World, id: string, verdict: Verdict): World {
    match verdict
    case Saved(row) => World(w.rows[id := row], w.journal + [Entry(id, row)], w.events + Emitted(job, id))
    case _ => w
  }

  // The simple form: every row in query order, by its own dispatch.
  function RowByRow(job: Job, w: World, ids: seq<string>): (World, Result)
    requires WellFormed(job.command, job.c.schema)
    decreases |ids|
  {
    if ids == [] then (w, Answered([]))
    else
      var verdict := VerdictOf(job, w.rows, ids[0]);
      if verdict.Crashed? then (w, Crash(ids[0]))
      else
        var (after, rest) := RowByRow(job, AfterDispatch(job, w, ids[0], verdict), ids[1..]);
        (after, Prepend(OutcomeOf(ids[0], verdict), rest))
  }

  // The rows a statement left out, dispatched by hand in query order.
  function ByHand(job: Job, w: World, ids: seq<string>, updated: set<string>): (World, Result)
    requires WellFormed(job.command, job.c.schema)
    decreases |ids|
  {
    if ids == [] then (w, Answered([]))
    else if ids[0] in updated then
      var (after, rest) := ByHand(job, w, ids[1..], updated);
      (after, Prepend(Outcome(ids[0], None), rest))
    else
      var verdict := VerdictOf(job, w.rows, ids[0]);
      if verdict.Crashed? then (w, Crash(ids[0]))
      else
        var (after, rest) := ByHand(job, AfterDispatch(job, w, ids[0], verdict), ids[1..], updated);
        (after, Prepend(OutcomeOf(ids[0], verdict), rest))
  }

  // ----- The statement over the table -----

  predicate Hit(st: Statement, dialect: Dialect, row: Row) {
    Selected(st, row, dialect) == Got(true)
  }

  // Some row's evaluation makes the store refuse the whole statement.
  ghost predicate Refuses(st: Statement, dialect: Dialect, rows: map<string, Row>) {
    exists id :: id in rows && (Selected(st, rows[id], dialect).Abort?
                                || (Hit(st, dialect, rows[id]) && Updated(st, rows[id], dialect).Abort?))
  }

  ghost predicate Updates(st: Statement, dialect: Dialect, rows: map<string, Row>, updated: seq<string>) {
    && NoDuplicates(updated)
    && (forall id :: id in updated <==> id in rows && Hit(st, dialect, rows[id]))
    && (forall id :: id in updated ==> Updated(st, rows[id], dialect).Got?)
  }

  // The table after the statement.
  function Rewritten(st: Statement, dialect: Dialect, rows: map<string, Row>): map<string, Row> {
    map id | id in rows ::
      if Hit(st, dialect, rows[id]) && Updated(st, rows[id], dialect).Got?
      then Updated(st, rows[id], dialect).value else rows[id]
  }

  function EntriesFor(rows: map<string, Row>, ids: seq<string>): seq<Entry> {
    if ids == [] then []
        else (if ids[0] in rows then [Entry(ids[0], rows[ids[0]])] else []) + EntriesFor(rows, ids[1..])
  }

  function Announced(job: Job, ids: seq<string>): Announcements {
    map id | id in ids :: Emitted(job, id)
  }

  // The world once the statement has committed: journal in the order the store returned the rows,
  // events in query order.
  function Committed(job: Job, st: Statement, w: World, ids: seq<string>, returned: seq<string>): World {
    var rows := Rewritten(st, job.c.dialect, w.rows);
    World(rows, w.journal + EntriesFor(rows, returned),
          w.events + EventsFor(Announced(job, ids), Among(ids, MembersOf(returned))))
  }

  // The run with its statement taken by the store: the rows it updated are committed, then the
  // rows it left are sent by hand.
  function AsStatement(job: Job, st: Statement, w: World, ids: seq<string>, returned: seq<string>): (World, Result)
    requires WellFormed(job.command, job.c.schema)
  {
    ByHand(job, Committed(job, st, w, ids, returned), ids, MembersOf(returned))
  }

  // `ids` is what the query answers over these records: each answered row once.
  ghost predicate AnswersQuery(job: Job, rows: map<string, Row>, ids: seq<string>) {
    && NoDuplicates(ids)
    && (forall id :: id in ids <==> id in rows && AllHold(job.query, rows[id], job.c.dialect))
    && (forall id :: id in rows ==> WellTyped(rows[id], job.c.schema))
  }

  // The planner gave a statement, and the store took it and answered the rows it updated.
  ghost predicate Ran(job: Job, st: Statement, w: World, ids: seq<string>, returned: seq<string>) {
    && job.Valid() && AnswersQuery(job, w.rows, ids)
    && Compile(job.c, job.command, job.query, job.roleHeld) == Some(st)
    && Updates(st, job.c.dialect, w.rows, returned)
  }

  // ----- Every row judged on the record it had when the sweep began -----

  ghost predicate FatesAre(job: Job, rows: map<string, Row>, ids: seq<string>, fates: Fates)
    requires WellFormed(job.command, job.c.schema)
  {
    forall id :: id in ids ==> FateOf(fates, id) == VerdictOf(job, rows, id)
  }

  function FatesOf(job: Job, rows: map<string, Row>, ids: seq<string>): Fates
    requires WellFormed(job.command, job.c.schema)
  {
    map id | id in ids :: VerdictOf(job, rows, id)
  }

  lemma Foreseen(job: Job, w: World, ids: seq<string>)
    requires WellFormed(job.command, job.c.schema)
    ensures FatesAre(job, w.rows, ids, FatesOf(job, w.rows, ids))
    ensures forall id :: id in ids ==> AnnouncedBy(Announced(job, ids), id) == Emitted(job, id)
  {
  }

  ghost predicate Foretold(job: Job, w: World, ids: seq<string>, updated: set<string>, fates: Fates,
      said: Announcements)
    requires WellFormed(job.command, job.c.schema)
  {
    && SavesAll(fates, ids, updated)
    && (forall id :: id in ids && id !in updated ==> FateOf(fates, id) == VerdictOf(job, w.rows, id))
    && (forall id :: id in ids ==> AnnouncedBy(said, id) == Emitted(job, id))
  }

  lemma ForetoldBehind(job: Job, w: World, ids: seq<string>, updated: set<string>, fates: Fates, said: Announcements)
    requires WellFormed(job.command, job.c.schema)
    requires ids != [] && NoDuplicates(ids) && Foretold(job, w, ids, updated, fates, said)
    ensures Foretold(job, w, ids[1..], updated, fates, said)
    ensures ids[0] in updated ==> FateOf(fates, ids[0]).Saved?
    ensures ids[0] !in updated ==>
              var verdict := VerdictOf(job, w.rows, ids[0]);
              && FateOf(fates, ids[0]) == verdict
              && AnnouncedBy(said, ids[0]) == Emitted(job, ids[0])
              && Foretold(job, AfterDispatch(job, w, ids[0], verdict), ids[1..], updated, fates, said)
  {
    assert ids[0] in ids && ids[0] !in ids[1..];
    assert forall id :: id in ids[1..] ==> id in ids;
  }

  lemma SameTail<T>(base: seq<T>, a: seq<T>, b: seq<T>)
    ensures base + a + b == base + (a + b)
  {
  }

  lemma SameAfter<T>(base: seq<T>, a: seq<T>, b: seq<T>)
    ensures base + a == base + b <==> a == b
  {
    assert (base + a)[|base|..] == a && (base + b)[|base|..] == b;
  }

  // Rows are judged alone: whatever the sweep already did, each row still gets the verdict it
  // would have got at the start.
  lemma {:induction false} ByHandIsJudged(job: Job, w: World, ids: seq<string>, updated: set<string>,
                                          fates: Fates, said: Announcements)
    requires WellFormed(job.command, job.c.schema)
    requires NoDuplicates(ids) && Foretold(job, w, ids, updated, fates, said)
    ensures var (after, result) := ByHand(job, w, ids, updated); var sent := Sent(fates, ids, updated);
            && result == Judged(fates, ids)
            && after.rows == Overlay(fates, w.rows, sent)
            && after.journal == w.journal + SavedEntries(fates, sent)
            && after.events == w.events + EventsFor(said, sent)
    decreases |ids|
  {
    if ids != [] {
      var id, rest := ids[0], ids[1..];
      var verdict := VerdictOf(job, w.rows, id);
      ForetoldBehind(job, w, ids, updated, fates, said);
      if id in updated {
        ByHandIsJudged(job, w, rest, updated, fates, said);
      } else if !verdict.Crashed? {
        var next, sent := AfterDispatch(job, w, id, verdict), Sent(fates, rest, updated);
        ByHandIsJudged(job, next, rest, updated, fates, said);
        if verdict.Saved? {
          assert Sent(fates, ids, updated) == [id] + sent;
          OverlayOne(fates, w.rows, id, sent);
          LogsOfOne(fates, said, id, sent);
          SameTail(w.journal, EntryOf(fates, id), SavedEntries(fates, sent));
          SameTail(w.events, AnnouncedBy(said, id), EventsFor(said, sent));
        } else {
          assert Sent(fates, ids, updated) == sent;
        }
      }
    }
  }

  lemma {:induction false} NothingUpdated(job: Job, w: World, ids: seq<string>)
    requires WellFormed(job.command, job.c.schema)
    ensures ByHand(job, w, ids, {}) == RowByRow(job, w, ids)
    decreases |ids|
  {
    if ids != [] {
      var verdict := VerdictOf(job, w.rows, ids[0]);
      if !verdict.Crashed? {
        NothingUpdated(job, AfterDispatch(job, w, ids[0], verdict), ids[1..]);
      }
    }
  }

  // ----- Comparing the two -----

  // Every row the statement updated is one a dispatch saves, as the record the statement wrote.
  lemma UpdatedAreSaved(job: Job, st: Statement, w: World, ids: seq<string>, returned: seq<string>, id: string)
    requires Ran(job, st, w, ids, returned)
    requires id in returned
    ensures id in ids && VerdictOf(job, w.rows, id) == Saved(Rewritten(st, job.c.dialect, w.rows)[id])
  {
    UpdatedRowIsSaved(job.c, job.command, job.query, w.rows[id], id);
    WhereHolds(st, w.rows[id], job.c.dialect);
  }

  lemma RewritesThem(job: Job, st: Statement, w: World, ids: seq<string>, returned: seq<string>)
    requires Ran(job, st, w, ids, returned)
    ensures RewritesAsSaved(FatesOf(job, w.rows, ids), w.rows, Rewritten(st, job.c.dialect, w.rows), ids, returned)
    ensures SavesAll(FatesOf(job, w.rows, ids), ids, MembersOf(returned))
  {
    forall id | id in returned
      ensures id in ids && VerdictOf(job, w.rows, id) == Saved(Rewritten(st, job.c.dialect, w.rows)[id])
    {
      UpdatedAreSaved(job, st, w, ids, returned, id);
    }
  }

  lemma {:induction false} ReturnedEntries(fates: Fates, rewritten: map<string, Row>, returned: seq<string>)
    requires forall id :: id in returned ==> id in rewritten && FateOf(fates, id) == Saved(rewritten[id])
    ensures EntriesFor(rewritten, returned) == SavedEntries(fates, returned)
  {
    if returned != [] {
      assert returned[0] in returned;
      ReturnedEntries(fates, rewritten, returned[1..]);
    }
  }

  lemma AsStatementIsJudged(job: Job, st: Statement, w: World, ids: seq<string>, returned: seq<string>)
    requires Ran(job, st, w, ids, returned)
    ensures var (after, result) := AsStatement(job, st, w, ids, returned);
            var fates, said, hits := FatesOf(job, w.rows, ids), Announced(job, ids), MembersOf(returned);
            var hand := Sent(fates, ids, hits);
            && result == Judged(fates, ids)
            && after.rows == Overlay(fates, Rewritten(st, job.c.dialect, w.rows), hand)
            && after.journal == w.journal + SavedEntries(fates, returned) + SavedEntries(fates, hand)
            && after.events == w.events + EventsFor(said, Among(ids, hits)) + EventsFor(said, hand)
  {
    var fates, committed := FatesOf(job, w.rows, ids), Committed(job, st, w, ids, returned);
    RewritesThem(job, st, w, ids, returned);
    ReturnedEntries(fates, committed.rows, returned);
    Foreseen(job, w, ids);
    forall id | id in ids && id !in returned
      ensures FateOf(fates, id) == VerdictOf(job, committed.rows, id)
    {
      assert committed.rows[id] == w.rows[id];
    }
    ByHandIsJudged(job, committed, ids, MembersOf(returned), fates, Announced(job, ids));
  }

  lemma RowByRowIsJudged(job: Job, w: World, ids: seq<string>)
    requires job.Valid() && NoDuplicates(ids)
    ensures var (after, result) := RowByRow(job, w, ids);
            var fates, said := FatesOf(job, w.rows, ids), Announced(job, ids);
            var all := Sent(fates, ids, {});
            && result == Judged(fates, ids)
            && after.rows == Overlay(fates, w.rows, all)
            && after.journal == w.journal + SavedEntries(fates, all)
            && after.events == w.events + EventsFor(said, all)
  {
    Foreseen(job, w, ids);
    NothingUpdated(job, w, ids);
    ByHandIsJudged(job, w, ids, {}, FatesOf(job, w.rows, ids), Announced(job, ids));
  }

  // As one statement a run answers exactly what row by row answers, crash included.
  lemma OutcomesAgree(job: Job, st: Statement, w: World, ids: seq<string>, returned: seq<string>)
    requires Ran(job, st, w, ids, returned)
    ensures AsStatement(job, st, w, ids, returned).1 == RowByRow(job, w, ids).1
  {
    AsStatementIsJudged(job, st, w, ids, returned);
    RowByRowIsJudged(job, w, ids);
  }

  // The rows a row-by-row run saves before it ends.
  function Reached(job: Job, rows: map<string, Row>, ids: seq<string>): seq<string>
    requires WellFormed(job.command, job.c.schema)
  {
    Sent(FatesOf(job, rows, ids), ids, {})
  }

  // The records agree exactly when the statement changed no row that row by row never reached: a
  // crash stops the row-by-row run, but the statement has committed every row it selected.
  lemma RecordsAgreeUnlessACrashHidARow(job: Job, st: Statement, w: World, ids: seq<string>, returned: seq<string>)
    requires Ran(job, st, w, ids, returned)
    ensures AsStatement(job, st, w, ids, returned).0.rows == RowByRow(job, w, ids).0.rows <==>
            forall id :: id in returned && id !in Reached(job, w.rows, ids) ==>
              Rewritten(st, job.c.dialect, w.rows)[id] == w.rows[id]
  {
    AsStatementIsJudged(job, st, w, ids, returned);
    RowByRowIsJudged(job, w, ids);
    RewritesThem(job, st, w, ids, returned);
    TablesAgreeUnlessHidden(FatesOf(job, w.rows, ids), w.rows, Rewritten(st, job.c.dialect, w.rows), ids, returned);
  }

  // The statement gives this row another record.
  predicate Changes(st: Statement, dialect: Dialect, row: Row) {
    Hit(st, dialect, row) && Updated(st, row, dialect).Got? && Updated(st, row, dialect).value != row
  }

  // A row whose dispatch crashes comes before a row the statement changes, judged on the table as it was.
  ghost predicate CrashComesFirst(job: Job, st: Statement, rows: map<string, Row>, ids: seq<string>)
    requires WellFormed(job.command, job.c.schema)
  {
    exists i, j :: 0 <= i < j < |ids| && VerdictOf(job, rows, ids[i]).Crashed?
                   && ids[j] in rows && Changes(st, job.c.dialect, rows[ids[j]])
  }

  // So the records agree exactly when no row that crashes comes before a row the statement changes.
  lemma RecordsAgreeUnlessACrashComesFirst(job: Job, st: Statement, w: World, ids: seq<string>, returned: seq<string>)
    requires Ran(job, st, w, ids, returned)
    ensures AsStatement(job, st, w, ids, returned).0.rows == RowByRow(job, w, ids).0.rows
            <==> !CrashComesFirst(job, st, w.rows, ids)
  {
    hide AsStatement, RowByRow, VerdictOf, Sent, Compile, AllHold, WellTyped, Selected, Updated;
    RecordsAgreeUnlessACrashHidARow(job, st, w, ids, returned);
    var fates, rewritten := FatesOf(job, w.rows, ids), Rewritten(st, job.c.dialect, w.rows);
    forall j | 0 <= j < |ids|
      ensures ids[j] in w.rows
      ensures ids[j] in returned && ids[j] !in Sent(fates, ids, {})
              <==> ids[j] in returned && exists i :: 0 <= i < j && VerdictOf(job, w.rows, ids[i]).Crashed?
    {
      if ids[j] in returned {
        UpdatedAreSaved(job, st, w, ids, returned, ids[j]);
        SentUnlessACrashComesFirst(fates, ids, j);
        assert forall i :: 0 <= i < j ==> FateOf(fates, ids[i]) == VerdictOf(job, w.rows, ids[i]);
      }
    }
    forall j | 0 <= j < |ids|
      ensures ids[j] in returned && rewritten[ids[j]] != w.rows[ids[j]] <==> Changes(st, job.c.dialect, w.rows[ids[j]])
    {
    }
    forall id | id in returned ensures id in ids { UpdatedAreSaved(job, st, w, ids, returned, id); }
  }

  // When every row the query answers meets the statement's guards, a run on SQLite ends without a crash.
  lemma GuardedRunsEnd(job: Job, st: Statement, w: World, ids: seq<string>, returned: seq<string>)
    requires Ran(job, st, w, ids, returned) && job.c.dialect.Sqlite?
    requires forall id :: id in ids ==> AllHold(st.guards, w.rows[id], job.c.dialect)
    ensures RowByRow(job, w, ids).1.Answered?
  {
    var fates := FatesOf(job, w.rows, ids);
    RowByRowIsJudged(job, w, ids);
    forall id | id in ids ensures !FateOf(fates, id).Crashed? {
      GuardsKeepFromCrashing(job.c, job.command, job.query, w.rows[id], id);
    }
    NoCrashAnswers(fates, ids);
  }

  // Without a crash both leave the same records, the same journal entries and the same events.
  lemma SweepsAgree(job: Job, st: Statement, w: World, ids: seq<string>, returned: seq<string>)
    requires Ran(job, st, w, ids, returned)
    requires RowByRow(job, w, ids).1.Answered?
    ensures var compiled, rowByRow := AsStatement(job, st, w, ids, returned).0, RowByRow(job, w, ids).0;
            && compiled.rows == rowByRow.rows
            && multiset(compiled.journal) == multiset(rowByRow.journal)
            && multiset(compiled.events) == multiset(rowByRow.events)
  {
    var fates := FatesOf(job, w.rows, ids);
    AsStatementIsJudged(job, st, w, ids, returned);
    RowByRowIsJudged(job, w, ids);
    RewritesThem(job, st, w, ids, returned);
    RecordsAgreeUnlessACrashHidARow(job, st, w, ids, returned);
    forall id | id in returned ensures id in Sent(fates, ids, {}) {
      UpdatedAreReached(fates, ids, returned, id);
    }
    LogsAgree(fates, Announced(job, ids), ids, returned);
    SameTail(w.journal, SavedEntries(fates, returned), SavedEntries(fates, Sent(fates, ids, MembersOf(returned))));
    SameTail(w.events, EventsFor(Announced(job, ids), Among(ids, MembersOf(returned))),
             EventsFor(Announced(job, ids), Sent(fates, ids, MembersOf(returned))));
  }

  // The event logs are equal, in order, exactly when no row the statement left but a dispatch
  // delivered comes before a row the statement updated.
  lemma EventsInOrderUnlessHandFirst(job: Job, st: Statement, w: World, ids: seq<string>, returned: seq<string>)
    requires Ran(job, st, w, ids, returned)
    requires RowByRow(job, w, ids).1.Answered? && job.command.emits != []
    ensures AsStatement(job, st, w, ids, returned).0.events == RowByRow(job, w, ids).0.events <==>
            !LeftFirst(Reached(job, w.rows, ids), MembersOf(returned))
  {
    var fates, said, hits := FatesOf(job, w.rows, ids), Announced(job, ids), MembersOf(returned);
    AsStatementIsJudged(job, st, w, ids, returned);
    RowByRowIsJudged(job, w, ids);
    RewritesThem(job, st, w, ids, returned);
    Foreseen(job, w, ids);
    EventOrderAgrees(fates, said, ids, returned, |job.command.emits|);
    var first, hand := EventsFor(said, Among(ids, hits)), EventsFor(said, Sent(fates, ids, hits));
    SameTail(w.events, first, hand);
    SameAfter(w.events, first + hand, EventsFor(said, Sent(fates, ids, {})));
  }
}
