// What a bulk run says of its rows and leaves behind, read off each row's own verdict.
module BulkAnswers {
  import opened Wrappers
  import opened Expressions
  import opened Dispatch
  import opened SetTransform
  import opened Lists
  import opened SweepRows
  import opened BulkSweep

  // ----- What a run answers -----

  // One outcome per row, in query order: delivered when the row's dispatch saves, refused for the reason
  // it refuses. A run that crashes does so at the first row whose dispatch crashes.
  ghost predicate Tells(fates: Fates, ids: seq<string>, result: Result) {
    match result
    case Answered(outcomes) =>
      |outcomes| == |ids|
      && forall i :: 0 <= i < |ids| ==>
           && outcomes[i].row == ids[i] && !FateOf(fates, ids[i]).Crashed?
           && (outcomes[i].refused.None? <==> FateOf(fates, ids[i]).Saved?)
           && (forall why :: outcomes[i].refused == Some(why) <==> FateOf(fates, ids[i]) == Refused(why))
    case Crash(at) =>
      exists k :: 0 <= k < |ids| && ids[k] == at && FateOf(fates, at).Crashed?
                  && forall i :: 0 <= i < k ==> !FateOf(fates, ids[i]).Crashed?
  }

  lemma {:induction false} JudgedTells(fates: Fates, ids: seq<string>)
    ensures Tells(fates, ids, Judged(fates, ids))
  {
    if ids != [] && !FateOf(fates, ids[0]).Crashed? {
      var rest := ids[1..];
      JudgedTells(fates, rest);
      match Judged(fates, rest) {
        case Answered(outcomes) =>
          forall i | 0 < i < |ids| ensures ids[i] == rest[i - 1] { }
        case Crash(at) =>
          var k :| 0 <= k < |rest| && rest[k] == at && FateOf(fates, at).Crashed?
                   && forall i :: 0 <= i < k ==> !FateOf(fates, rest[i]).Crashed?;
          assert ids[k + 1] == at;
          forall i | 0 <= i < k + 1 ensures !FateOf(fates, ids[i]).Crashed? {
            assert i > 0 ==> ids[i] == rest[i - 1];
          }
      }
    }
  }

  // What is said of each row is what its own dispatch, with the caller's role and the row's arguments, on
  // the record it had at the start, comes to.
  ghost predicate TellsVerdicts(job: Job, rows: map<string, Row>, ids: seq<string>, result: Result)
    requires WellFormed(job.command, job.c.schema) && forall id :: id in ids ==> id in rows
  {
    match result
    case Answered(outcomes) =>
      |outcomes| == |ids|
      && forall i :: 0 <= i < |ids| ==>
           var verdict := Dispatched(job.c.schema, job.command, rows[ids[i]], job.c.defaults[job.c.key := Str(ids[i])],
               job.roleHeld);
           && outcomes[i].row == ids[i] && !verdict.Crashed?
           && (outcomes[i].refused.None? <==> verdict.Saved?)
           && (forall why :: outcomes[i].refused == Some(why) <==> verdict == Refused(why))
    case Crash(at) =>
      exists k :: 0 <= k < |ids| && ids[k] == at && VerdictOf(job, rows, at).Crashed?
                  && forall i :: 0 <= i < k ==> !VerdictOf(job, rows, ids[i]).Crashed?
  }

  lemma OutcomesAreVerdicts(job: Job, w: World, ids: seq<string>)
    requires job.Valid() && NoDuplicates(ids) && forall id :: id in ids ==> id in w.rows
    ensures TellsVerdicts(job, w.rows, ids, RowByRow(job, w, ids).1)
  {
    hide Dispatched, RowByRow, Judged, FatesOf, FateOf;
    var fates := FatesOf(job, w.rows, ids);
    RowByRowIsJudged(job, w, ids);
    JudgedTells(fates, ids);
    Foreseen(job, w, ids);
    forall i | 0 <= i < |ids| ensures FateOf(fates, ids[i]) == VerdictOf(job, w.rows, ids[i]) {
      assert ids[i] in ids;
    }
  }

  // ----- What a run leaves behind -----

  // The rows of `saved`, each journalled once as the record its dispatch saves.
  ghost predicate Journals(fates: Fates, saved: seq<string>, journal: seq<Entry>) {
    |journal| == |saved|
    && forall k :: 0 <= k < |saved| ==> FateOf(fates, saved[k]) == Saved(journal[k].row) && journal[k].id == saved[k]
  }

  lemma {:induction false} EntriesJournal(fates: Fates, saved: seq<string>)
    requires forall id :: id in saved ==> FateOf(fates, id).Saved?
    ensures Journals(fates, saved, SavedEntries(fates, saved))
  {
    if saved != [] {
      assert saved[0] in saved;
      EntriesJournal(fates, saved[1..]);
    }
  }

  // Each of `saved` in turn announced by the command's events in their order, with its own arguments.
  ghost predicate Announces(job: Job, saved: seq<string>, events: seq<Event>)
    decreases |saved|
  {
    var n := |job.command.emits|;
    if saved == [] then events == []
    else
      |events| >= n
      && (forall e :: 0 <= e < n ==>
            events[e] == Event(job.command.emits[e], saved[0], job.c.defaults[job.c.key := Str(saved[0])]))
      && Announces(job, saved[1..], events[n..])
  }

  lemma EmittedIs(job: Job, id: string, e: nat)
    requires e < |job.command.emits|
    ensures Emitted(job, id)[e] == Event(job.command.emits[e], id, job.c.defaults[job.c.key := Str(id)])
  {
    var payload := job.c.defaults[job.c.key := Str(id)];
    assert ForRow(job.c, id) == payload;
    assert Emitted(job, id)[e] == Event(job.command.emits[e], id, ForRow(job.c, id));
  }

  lemma {:induction false} EventsAnnounce(job: Job, ids: seq<string>, saved: seq<string>)
    requires forall id :: id in saved ==> id in ids
    ensures Announces(job, saved, EventsFor(Announced(job, ids), saved))
    decreases |saved|
  {
    if saved != [] {
      assert saved[0] in saved;
      EventsAnnounce(job, ids, saved[1..]);
      var first, rest := Emitted(job, saved[0]), EventsFor(Announced(job, ids), saved[1..]);
      assert EventsFor(Announced(job, ids), saved) == first + rest && |first| == |job.command.emits|;
      assert (first + rest)[|first|..] == rest;
      forall e | 0 <= e < |first|
        ensures (first + rest)[e] == Event(job.command.emits[e], saved[0], job.c.defaults[job.c.key := Str(saved[0])])
      {
        EmittedIs(job, saved[0], e);
      }
    }
  }

  // A run that ends without a crash: every row of the query whose dispatch saves holds the record it
  // saves, every other row is as it was, and the saved rows are journalled and announced in query order.
  lemma SavedRowsAreLeft(job: Job, w: World, ids: seq<string>)
    requires job.Valid() && NoDuplicates(ids) && (forall id :: id in ids ==> id in w.rows)
    requires RowByRow(job, w, ids).1.Answered?
    ensures var after := RowByRow(job, w, ids).0;
            && after.rows.Keys == w.rows.Keys
            && (forall id :: id in w.rows ==>
                  after.rows[id] == if id in ids && VerdictOf(job, w.rows, id).Saved?
                      then VerdictOf(job, w.rows, id).row else w.rows[id])
            && w.journal <= after.journal && w.events <= after.events
            && exists saved: seq<string> ::
                 && saved == Among(ids, MembersOf(saved))
                 && (forall id :: id in saved <==> id in ids && VerdictOf(job, w.rows, id).Saved?)
                 && Journals(FatesOf(job, w.rows, ids), saved, after.journal[|w.journal|..])
                 && Announces(job, saved, after.events[|w.events|..])
  {
    hide VerdictOf, RowByRow, Announced, Announces, Journals;
    var fates, saved := FatesOf(job, w.rows, ids), Sent(FatesOf(job, w.rows, ids), ids, {});
    RowByRowIsJudged(job, w, ids);
    SentAreSaved(fates, ids, {});
    var after := RowByRow(job, w, ids).0;
    EntriesJournal(fates, saved);
    EventsAnnounce(job, ids, saved);
    EverySavedIsSent(fates, ids);
    assert after.journal[|w.journal|..] == SavedEntries(fates, saved);
    assert after.events[|w.events|..] == EventsFor(Announced(job, ids), saved);
    SentInOrder(fates, ids);
  }

  lemma {:induction false} EverySavedIsSent(fates: Fates, ids: seq<string>)
    requires Judged(fates, ids).Answered?
    ensures forall id :: id in Sent(fates, ids, {}) <==> id in ids && FateOf(fates, id).Saved?
  {
    if ids != [] {
      EverySavedIsSent(fates, ids[1..]);
      assert ids == [ids[0]] + ids[1..];
    }
  }

  lemma SentInOrder(fates: Fates, ids: seq<string>)
    requires Judged(fates, ids).Answered?
    ensures var saved := Sent(fates, ids, {}); saved == Among(ids, MembersOf(saved))
  {
    var saved := Sent(fates, ids, {});
    EverySavedIsSent(fates, ids);
    SentByPart(fates, ids, MembersOf(saved));
    AllAmong(saved, MembersOf(saved));
  }

  lemma {:induction false} AllAmong(ids: seq<string>, chosen: set<string>)
    requires forall id :: id in ids ==> id in chosen
    ensures Among(ids, chosen) == ids
  {
    if ids != [] {
      AllAmong(ids[1..], chosen);
    }
  }
}
