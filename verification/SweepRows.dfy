// The bookkeeping of a sweep once every row's verdict is known: outcomes, entries and events over
// the ids of a query, and how they split between rows updated at once and rows sent by hand.
module SweepRows {
  import opened Wrappers
  import opened Expressions
  import opened Dispatch
  import opened Lists

  datatype Entry = Entry(id: string, row: Row)

  datatype Event = Event(name: string, id: string, payload: Env)

  // One row's outcome; a refusal carries its reason.
  datatype Outcome = Outcome(row: string, refused: Option<Refusal>)

  // A fault is no refusal: it ends the sweep with an exception at the row that raised it.
  datatype Result = Answered(outcomes: seq<Outcome>) | Crash(at: string)

  type Fates = map<string, Verdict>

  // What a dispatch of each row announces.
  type Announcements = map<string, seq<Event>>

  function FateOf(fates: Fates, id: string): Verdict {
    if id in fates then fates[id] else Refused(NotFound)
  }

  function OutcomeOf(id: string, verdict: Verdict): Outcome {
    Outcome(id, if verdict.Refused? then Some(verdict.why) else None)
  }

  function Prepend(outcome: Outcome, result: Result): Result {
    match result
    case Answered(rest) => Answered([outcome] + rest)
    case Crash(at) => Crash(at)
  }

  function Ahead(outcomes: seq<Outcome>, result: Result): Result {
    match result
    case Answered(rest) => Answered(outcomes + rest)
    case Crash(at) => Crash(at)
  }

  lemma AheadNone(result: Result)
    ensures Ahead([], result) == result
  {
    if result.Answered? {
      assert [] + result.outcomes == result.outcomes;
    }
  }

  lemma AheadOne(outcomes: seq<Outcome>, outcome: Outcome, rest: Result)
    ensures Ahead(outcomes, Prepend(outcome, rest)) == Ahead(outcomes + [outcome], rest)
  {
    if rest.Answered? {
      assert outcomes + ([outcome] + rest.outcomes) == outcomes + [outcome] + rest.outcomes;
    }
  }

  // The answer of a sweep that judges each row and stops at the first crash.
  function Judged(fates: Fates, ids: seq<string>): Result {
    if ids == [] then Answered([])
    else if FateOf(fates, ids[0]).Crashed? then Crash(ids[0])
    else Prepend(OutcomeOf(ids[0], FateOf(fates, ids[0])), Judged(fates, ids[1..]))
  }

  // The rows outside `updated` a sweep saves before the first crash, in query order.
  function Sent(fates: Fates, ids: seq<string>, updated: set<string>): seq<string> {
    if ids == [] then []
    else if ids[0] in updated then Sent(fates, ids[1..], updated)
    else if FateOf(fates, ids[0]).Crashed? then []
    else (if FateOf(fates, ids[0]).Saved? then [ids[0]] else []) + Sent(fates, ids[1..], updated)
  }

  function EntryOf(fates: Fates, id: string): seq<Entry> {
    match FateOf(fates, id) case Saved(row) => [Entry(id, row)] case _ => []
  }

  function SavedEntries(fates: Fates, ids: seq<string>): seq<Entry> {
    if ids == [] then [] else EntryOf(fates, ids[0]) + SavedEntries(fates, ids[1..])
  }

  function AnnouncedBy(said: Announcements, id: string): seq<Event> {
    if id in said then said[id] else []
  }

  function EventsFor(said: Announcements, ids: seq<string>): seq<Event> {
    if ids == [] then [] else AnnouncedBy(said, ids[0]) + EventsFor(said, ids[1..])
  }

  // `base` with each of `ids` replaced by the record its dispatch saves.
  function Overlay(fates: Fates, base: map<string, Row>, ids: seq<string>): map<string, Row> {
    base + map id | id in ids && FateOf(fates, id).Saved? :: FateOf(fates, id).row
  }

  ghost predicate SavesAll(fates: Fates, ids: seq<string>, updated: set<string>) {
    forall id :: id in ids && id in updated ==> FateOf(fates, id).Saved?
  }

  // ----- Sent -----

  lemma {:induction false} SentAreSaved(fates: Fates, ids: seq<string>, updated: set<string>)
    ensures forall id :: id in Sent(fates, ids, updated) ==>
              id in ids && id !in updated && FateOf(fates, id).Saved?
  {
    if ids != [] {
      SentAreSaved(fates, ids[1..], updated);
      assert ids == [ids[0]] + ids[1..];
    }
  }

  lemma OverlayOne(fates: Fates, base: map<string, Row>, id: string, rest: seq<string>)
    requires FateOf(fates, id).Saved?
    ensures Overlay(fates, base[id := FateOf(fates, id).row], rest) == Overlay(fates, base, [id] + rest)
  {
  }

  // The rows saved one by one are those sent by hand and those updated at once.
  lemma {:induction false} SentSplits(fates: Fates, ids: seq<string>, updated: set<string>, id: string)
    requires SavesAll(fates, ids, updated)
    ensures id in Sent(fates, ids, updated) <==> id in Sent(fates, ids, {}) && id !in updated
  {
    if ids != [] {
      SavesRest(fates, ids, updated);
      SentSplits(fates, ids[1..], updated, id);
    }
  }

  lemma SavesRest(fates: Fates, ids: seq<string>, updated: set<string>)
    requires SavesAll(fates, ids, updated) && ids != []
    ensures SavesAll(fates, ids[1..], updated)
    ensures ids[0] in updated ==> FateOf(fates, ids[0]).Saved?
  {
    assert ids[0] in ids && forall id :: id in ids[1..] ==> id in ids;
  }

  // Without a crash the same split keeps the order within each part.
  lemma {:induction false} SentByPart(fates: Fates, ids: seq<string>, updated: set<string>)
    requires SavesAll(fates, ids, updated)
    requires Judged(fates, ids).Answered?
    ensures Among(Sent(fates, ids, {}), updated) == Among(ids, updated)
    ensures Without(Sent(fates, ids, {}), updated) == Sent(fates, ids, updated)
  {
    if ids != [] {
      SavesRest(fates, ids, updated);
      SentByPart(fates, ids[1..], updated);
      var all, rest := Sent(fates, ids, {}), Sent(fates, ids[1..], {});
      if FateOf(fates, ids[0]).Saved? {
        assert all == [ids[0]] + rest;
        assert all[0] == ids[0] && all[1..] == rest;
      } else {
        assert all == rest;
      }
    }
  }

  // A row that is saved is sent exactly when no crash comes before it.
  lemma {:induction false} SentUnlessACrashComesFirst(fates: Fates, ids: seq<string>, j: nat)
    requires NoDuplicates(ids) && j < |ids| && FateOf(fates, ids[j]).Saved?
    ensures ids[j] in Sent(fates, ids, {}) <==> forall i :: 0 <= i < j ==> !FateOf(fates, ids[i]).Crashed?
  {
    var rest := ids[1..];
    if j > 0 {
      SentUnlessACrashComesFirst(fates, rest, j - 1);
      assert ids[j] == rest[j - 1] && ids[0] != ids[j];
      assert (forall i :: 0 <= i < j ==> !FateOf(fates, ids[i]).Crashed?) <==>
             !FateOf(fates, ids[0]).Crashed? && forall i :: 0 <= i < j - 1 ==> !FateOf(fates, rest[i]).Crashed? by {
        assert forall i :: 0 < i < j ==> ids[i] == rest[i - 1];
        assert forall i :: 0 <= i < j - 1 ==> rest[i] == ids[i + 1];
      }
    }
  }

  lemma {:induction false} NoCrashAnswers(fates: Fates, ids: seq<string>)
    requires forall id :: id in ids ==> !FateOf(fates, id).Crashed?
    ensures Judged(fates, ids).Answered?
  {
    if ids != [] {
      assert ids[0] in ids && forall id :: id in ids[1..] ==> id in ids;
      NoCrashAnswers(fates, ids[1..]);
    }
  }

  // ----- Logs follow the rows -----

  lemma Regrouped<T>(a: seq<T>, b: seq<T>, c: seq<T>)
    ensures a + (b + c) == a + b + c
  {
  }

  lemma {:induction false} LogsConcat(fates: Fates, said: Announcements, a: seq<string>, b: seq<string>)
    ensures SavedEntries(fates, a + b) == SavedEntries(fates, a) + SavedEntries(fates, b)
    ensures EventsFor(said, a + b) == EventsFor(said, a) + EventsFor(said, b)
  {
    hide EntryOf, AnnouncedBy;
    if a == [] {
      assert a + b == b;
    } else {
      LogsConcat(fates, said, a[1..], b);
      assert (a + b)[1..] == a[1..] + b;
      Regrouped(EntryOf(fates, a[0]), SavedEntries(fates, a[1..]), SavedEntries(fates, b));
      Regrouped(AnnouncedBy(said, a[0]), EventsFor(said, a[1..]), EventsFor(said, b));
    }
  }

  lemma LogsOfOne(fates: Fates, said: Announcements, id: string, rest: seq<string>)
    ensures SavedEntries(fates, [id] + rest) == EntryOf(fates, id) + SavedEntries(fates, rest)
    ensures EventsFor(said, [id] + rest) == AnnouncedBy(said, id) + EventsFor(said, rest)
  {
    assert ([id] + rest)[1..] == rest;
  }

  // A rearrangement of the rows rearranges their entries and events.
  lemma {:induction false} LogsFollowTheRows(fates: Fates, said: Announcements, a: seq<string>, b: seq<string>)
    requires multiset(a) == multiset(b)
    ensures multiset(SavedEntries(fates, a)) == multiset(SavedEntries(fates, b))
    ensures multiset(EventsFor(said, a)) == multiset(EventsFor(said, b))
    decreases |a|
  {
    if a == [] {
      assert |multiset(b)| == 0;
    } else {
      var k := HeadElsewhere(a, b);
      LogsFollowTheRows(fates, said, a[1..], b[..k] + b[k + 1..]);
      LogsOfOne(fates, said, a[0], a[1..]);
      LogsAround(fates, said, b, k);
      assert a == [a[0]] + a[1..];
    }
  }

  lemma LogsAround(fates: Fates, said: Announcements, b: seq<string>, k: nat)
    requires k < |b|
    ensures var rest := b[..k] + b[k + 1..];
            && multiset(SavedEntries(fates, b)) == multiset(EntryOf(fates, b[k]) + SavedEntries(fates, rest))
            && multiset(EventsFor(said, b)) == multiset(AnnouncedBy(said, b[k]) + EventsFor(said, rest))
  {
    hide SavedEntries, EventsFor, EntryOf, AnnouncedBy;
    var front, back := b[..k], b[k + 1..];
    assert b == front + ([b[k]] + back);
    LogsConcat(fates, said, front, [b[k]] + back);
    LogsConcat(fates, said, front, back);
    LogsOfOne(fates, said, b[k], back);
  }

  // ----- The order of the events -----

  // Every row announces its own block of the same size, and a block names its row.
  ghost predicate Telling(said: Announcements, ids: seq<string>, size: nat) {
    size > 0 && forall id :: id in ids ==> |AnnouncedBy(said, id)| == size && AnnouncedBy(said, id)[0].id == id
  }

  lemma {:induction false} EventsTellRows(said: Announcements, a: seq<string>, b: seq<string>, size: nat)
    requires Telling(said, a, size) && Telling(said, b, size)
    ensures EventsFor(said, a) == EventsFor(said, b) <==> a == b
    decreases |a|
  {
    if a != [] && b != [] {
      EventsTellRows(said, a[1..], b[1..], size);
      var ea, eb := EventsFor(said, a), EventsFor(said, b);
      assert ea[0] == AnnouncedBy(said, a[0])[0] && eb[0] == AnnouncedBy(said, b[0])[0];
      assert ea[size..] == EventsFor(said, a[1..]) && eb[size..] == EventsFor(said, b[1..]);
      assert a == [a[0]] + a[1..] && b == [b[0]] + b[1..];
    }
  }

  // ----- The two sweeps compared, on verdicts alone -----

  function MembersOf(ids: seq<string>): set<string> {
    set id | id in ids
  }

  // `returned` are rows among `ids`, each rewritten to the record its own dispatch would save, and
  // no other row rewritten.
  ghost predicate RewritesAsSaved(fates: Fates, rows: map<string, Row>, rewritten: map<string, Row>,
                                  ids: seq<string>, returned: seq<string>) {
    && rewritten.Keys == rows.Keys
    && (forall id :: id in ids ==> id in rows)
    && (forall id :: id in returned ==> id in ids && FateOf(fates, id) == Saved(rewritten[id]))
    && (forall id :: id in rows && id !in returned ==> rewritten[id] == rows[id])
  }

  // The two tables at one row.
  lemma SameRowUnlessHidden(fates: Fates, rows: map<string, Row>, rewritten: map<string, Row>,
                            ids: seq<string>, returned: seq<string>, id: string)
    requires RewritesAsSaved(fates, rows, rewritten, ids, returned)
    ensures var all, hand := Sent(fates, ids, {}), Sent(fates, ids, MembersOf(returned));
            && (id in Overlay(fates, rewritten, hand) <==> id in rows)
            && (id in Overlay(fates, rows, all) <==> id in rows)
            && (id in rows ==>
                  (Overlay(fates, rewritten, hand)[id] == Overlay(fates, rows, all)[id]
                   <==> (id in returned && id !in all ==> rewritten[id] == rows[id])))
  {
    hide Sent;
    SentAreSaved(fates, ids, {});
    SentAreSaved(fates, ids, MembersOf(returned));
    SentSplits(fates, ids, MembersOf(returned), id);
  }

  lemma TablesAgreeUnlessHidden(fates: Fates, rows: map<string, Row>, rewritten: map<string, Row>,
                                ids: seq<string>, returned: seq<string>)
    requires RewritesAsSaved(fates, rows, rewritten, ids, returned)
    ensures Overlay(fates, rewritten, Sent(fates, ids, MembersOf(returned)))
            == Overlay(fates, rows, Sent(fates, ids, {}))
            <==> forall id :: id in returned && id !in Sent(fates, ids, {}) ==> rewritten[id] == rows[id]
  {
    var all, hand := Sent(fates, ids, {}), Sent(fates, ids, MembersOf(returned));
    var a, b := Overlay(fates, rewritten, hand), Overlay(fates, rows, all);
    forall id
      ensures id in a <==> id in rows
      ensures id in b <==> id in rows
      ensures id in rows ==> (a[id] == b[id] <==> (id in returned && id !in all ==> rewritten[id] == rows[id]))
    {
      SameRowUnlessHidden(fates, rows, rewritten, ids, returned, id);
    }
    assert a.Keys == rows.Keys && b.Keys == rows.Keys;
    if a == b {
      forall id | id in returned && id !in all ensures rewritten[id] == rows[id] {
        assert id in rows;
      }
    }
  }

  // Without a crash every updated row is one the other sweep saves.
  lemma UpdatedAreReached(fates: Fates, ids: seq<string>, returned: seq<string>, id: string)
    requires SavesAll(fates, ids, MembersOf(returned)) && Judged(fates, ids).Answered?
    requires id in returned && id in ids
    ensures id in Sent(fates, ids, {})
  {
    SentByPart(fates, ids, MembersOf(returned));
    AmongIsIn(ids, MembersOf(returned), id);
    AmongIsIn(Sent(fates, ids, {}), MembersOf(returned), id);
  }

  // Without a crash the two sweeps journal and announce the same things.
  lemma LogsAgree(fates: Fates, said: Announcements, ids: seq<string>, returned: seq<string>)
    requires SavesAll(fates, ids, MembersOf(returned)) && Judged(fates, ids).Answered?
    requires NoDuplicates(ids) && NoDuplicates(returned) && forall id :: id in returned ==> id in ids
    ensures var all, hand, chosen :=
            Sent(fates, ids, {}), Sent(fates, ids, MembersOf(returned)), Among(ids, MembersOf(returned));
            && multiset(SavedEntries(fates, returned) + SavedEntries(fates, hand)) == multiset(SavedEntries(fates, all))
            && multiset(EventsFor(said, chosen) + EventsFor(said, hand)) == multiset(EventsFor(said, all))
  {
    var hits := MembersOf(returned);
    var all, hand, chosen := Sent(fates, ids, {}), Sent(fates, ids, hits), Among(ids, hits);
    SentByPart(fates, ids, hits);
    ChosenAndNot(all, hits);
    AmongOnce(ids, hits);
    forall id ensures id in chosen <==> id in returned { AmongIsIn(ids, hits, id); }
    SameMembersOnce(chosen, returned);
    assert multiset(chosen + hand) == multiset(all);
    assert multiset(returned + hand) == multiset(all);
    LogsFollowTheRows(fates, said, chosen + hand, all);
    LogsFollowTheRows(fates, said, returned + hand, all);
    LogsConcat(fates, said, chosen, hand);
    LogsConcat(fates, said, returned, hand);
  }

  // Their events come in the same order exactly when no row sent by hand precedes an updated one.
  lemma EventOrderAgrees(fates: Fates, said: Announcements, ids: seq<string>, returned: seq<string>, size: nat)
    requires SavesAll(fates, ids, MembersOf(returned)) && Judged(fates, ids).Answered?
    requires Telling(said, ids, size)
    ensures var all, hits := Sent(fates, ids, {}), MembersOf(returned);
            EventsFor(said, Among(ids, hits)) + EventsFor(said, Sent(fates, ids, hits)) == EventsFor(said, all)
            <==> !LeftFirst(all, hits)
  {
    var all, hits := Sent(fates, ids, {}), MembersOf(returned);
    var split := Among(all, hits) + Without(all, hits);
    SentByPart(fates, ids, hits);
    SplitKeepsOrder(all, hits);
    LogsConcat(fates, said, Among(all, hits), Without(all, hits));
    SentAreSaved(fates, ids, {});
    ChosenAndNot(all, hits);
    forall id | id in split ensures id in ids {
      assert id in multiset(split);
      assert id in multiset(all);
    }
    EventsTellRows(said, split, all, size);
  }
}
