// The repository a bulk run writes through, and the sweep itself: loops that update the records,
// the journal and the event log, proved against the two forms in BulkSweep.
module BulkRepository {
  import opened Wrappers
  import opened Expressions
  import opened Dispatch
  import opened SetTransform
  import opened Lists
  import opened SweepRows
  import opened BulkSweep
  import opened BulkAnswers

  class Repository {
    var rows: map<string, Row>
    var journal: seq<Entry>
    var events: seq<Event>

    ghost function Abs(): World
      reads this
    {
      World(rows, journal, events)
    }

    constructor (rows: map<string, Row>)
      ensures Abs() == World(rows, [], [])
    {
      this.rows := rows;
      journal := [];
      events := [];
    }

    // One dispatch. Answers nothing when the dispatch crashes.
    method Dispatch(job: Job, id: string) returns (outcome: Option<Outcome>)
      requires WellFormed(job.command, job.c.schema)
      modifies this
      ensures Abs() == AfterDispatch(job, old(Abs()), id, VerdictOf(job, old(rows), id))
      ensures var verdict := VerdictOf(job, old(rows), id);
              && (outcome.None? <==> verdict.Crashed?)
              && (outcome == Some(Outcome(id, None)) <==> verdict.Saved?)
              && (forall why :: outcome == Some(Outcome(id, Some(why))) <==> verdict == Refused(why))
    {
      match VerdictOf(job, rows, id) {
        case Saved(row) =>
          rows := rows[id := row];
          journal := journal + [Entry(id, row)];
          events := events + Emitted(job, id);
          outcome := Some(Outcome(id, None));
        case Refused(why) =>
          outcome := Some(Outcome(id, Some(why)));
        case Crashed =>
          outcome := None;
      }
    }

    // Sends the rows not yet updated, each by its own dispatch, in query order.
    method SendRows(job: Job, ids: seq<string>, updated: set<string>) returns (result: Result)
      requires WellFormed(job.command, job.c.schema)
      modifies this
      ensures (Abs(), result) == ByHand(job, old(Abs()), ids, updated)
    {
      var outcomes: seq<Outcome> := [];
      var k := 0;
      assert ids[0..] == ids;
      AheadNone(ByHand(job, Abs(), ids, updated).1);
      while k < |ids|
        invariant 0 <= k <= |ids|
        invariant ByHand(job, old(Abs()), ids, updated) ==
                  (ByHand(job, Abs(), ids[k..], updated).0, Ahead(outcomes, ByHand(job, Abs(), ids[k..], updated).1))
      {
        var rest := ids[k..];
        assert rest[0] == ids[k] && rest[1..] == ids[k + 1..];
        if ids[k] in updated {
          AheadOne(outcomes, Outcome(ids[k], None), ByHand(job, Abs(), ids[k + 1..], updated).1);
          outcomes := outcomes + [Outcome(ids[k], None)];
        } else {
          label Before:
          var sent := Dispatch(job, ids[k]);
          if sent.None? {
            return Crash(ids[k]);
          }
          AheadOne(outcomes, sent.value, ByHand(job, Abs(), ids[k + 1..], updated).1);
          outcomes := outcomes + [sent.value];
        }
        k := k + 1;
      }
      result := Answered(outcomes);
      assert ids[k..] == [];
      assert outcomes + [] == outcomes;
    }

    // One UPDATE over the whole table in its own transaction. The store may refuse it, for an
    // overflow or a lost connection, and then nothing was written. The rows come back in no set
    // order and are journalled in the order they came.
    method ApplySetTransform(st: Statement, dialect: Dialect, lost: bool) returns (returned: Option<seq<string>>)
      modifies this`rows, this`journal
      ensures returned.None? <==> lost || Refuses(st, dialect, old(rows))
      ensures returned.None? ==> Abs() == old(Abs())
      ensures returned.Some? ==> Updates(st, dialect, old(rows), returned.value)
      ensures returned.Some? ==>
                rows == Rewritten(st, dialect, old(rows)) && journal == old(journal) + EntriesFor(rows, returned.value)
    {
      hide Selected, Updated, EntriesFor;
      if lost {
        return None;
      }
      var updated: seq<string> := [];
      var left := rows.Keys;
      while left != {}
        invariant rows == old(rows) && journal == old(journal) && left <= rows.Keys
        invariant NoDuplicates(updated)
        invariant forall id :: id in updated <==> id in rows && id !in left && Hit(st, dialect, rows[id])
        invariant forall id :: id in rows && id !in left ==>
                    Selected(st, rows[id], dialect).Got?
                    && (Hit(st, dialect, rows[id]) ==> Updated(st, rows[id], dialect).Got?)
        decreases |left|
      {
        var id :| id in left;
        left := left - {id};
        var selected := Selected(st, rows[id], dialect);
        if selected.Abort? {
          return None;
        }
        if selected.value {
          if Updated(st, rows[id], dialect).Abort? {
            return None;
          }
          updated := updated + [id];
        }
      }
      rows := Rewritten(st, dialect, rows);
      journal := journal + EntriesFor(rows, updated);
      returned := Some(updated);
    }

    // The run: as one statement when it compiles and the store takes it, else row by row. A command
    // whose `ensures` or invariants read the settled record is never compiled, so it goes row by row.
    // `ids` is what the query answered, in its own order.
    method Sweep(job: Job, ids: seq<string>, asStatement: bool, lost: bool) returns (result: Result)
      requires job.Valid()
      requires AnswersQuery(job, rows, ids)
      modifies this
      ensures TellsVerdicts(job, old(rows), ids, result)
      ensures var (w, r) := RowByRow(job, old(Abs()), ids);
              && result == r
              && (r.Answered? ==> rows == w.rows && multiset(journal) == multiset(w.journal)
                                  && multiset(events) == multiset(w.events))
              && (!asStatement || lost || Compile(job.c, job.command, job.query, job.roleHeld).None? ==> Abs() == w)
              && (job.command.ensuring != [] || job.c.schema.invariants != [] ==> Abs() == w)
    {
      ghost var before := Abs();
      OutcomesAreVerdicts(job, before, ids);
      if asStatement {
        var st := Compile(job.c, job.command, job.query, job.roleHeld);
        if st.Some? {
          var returned := ApplySetTransform(st.value, job.c.dialect, lost);
          if returned.Some? {
            var hits := MembersOf(returned.value);
            events := events + EventsFor(Announced(job, ids), Among(ids, hits));
            assert Abs() == Committed(job, st.value, before, ids, returned.value);
            result := SendRows(job, ids, hits);
            OutcomesAgree(job, st.value, before, ids, returned.value);
            if result.Answered? {
              SweepsAgree(job, st.value, before, ids, returned.value);
            }
            return;
          }
        }
      }
      result := SendRows(job, ids, {});
      NothingUpdated(job, before, ids);
    }
  }
}
