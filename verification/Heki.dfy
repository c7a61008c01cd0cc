// The file-backed store: a snapshot and a journal replayed over it on every read, and the compaction
// that folds one into the other, with a crash possible between any two writes.
module Heki {
  import opened Wrappers

  type Records = map<string, string>

  datatype Entry = Saved(id: string, state: string) | Deleted(id: string)

  // What lies on disk.
  datatype Disk = Disk(snapshot: Records, journal: seq<Entry>)

  function Applied(records: Records, e: Entry): Records {
    match e case Saved(id, state) => records[id := state] case Deleted(id) => records - {id}
  }

  // The journal, oldest first, over what was there.
  function Replay(journal: seq<Entry>, records: Records): Records {
    if journal == [] then records else Applied(Replay(journal[..|journal| - 1], records), journal[|journal| - 1])
  }

  // What a read finds.
  function Current(d: Disk): Records { Replay(d.journal, d.snapshot) }

  // ----- Replaying again changes nothing -----

  predicate Speaks(journal: seq<Entry>, id: string) {
    exists i :: 0 <= i < |journal| && journal[i].id == id
  }

  lemma SpeaksLast(journal: seq<Entry>, id: string)
    requires journal != []
    ensures Speaks(journal, id) <==> Speaks(journal[..|journal| - 1], id) || journal[|journal| - 1].id == id
  {
    var n := |journal| - 1;
    if i :| 0 <= i < n && journal[i].id == id {
      assert journal[..n][i].id == id;
    }
  }

  // One key's fate depends on that key alone.
  lemma {:induction false} AtKey(journal: seq<Entry>, a: Records, b: Records, id: string)
    ensures var x, y := Replay(journal, a), Replay(journal, b);
            if Speaks(journal, id) || ((id in a <==> id in b) && (id in a ==> a[id] == b[id]))
            then (id in x <==> id in y) && (id in x ==> x[id] == y[id]) else true
  {
    if journal != [] {
      SpeaksLast(journal, id);
      AtKey(journal[..|journal| - 1], a, b, id);
    }
  }

  lemma {:induction false} UntouchedKey(journal: seq<Entry>, records: Records, id: string)
    requires !Speaks(journal, id)
    ensures var after := Replay(journal, records);
            (id in after <==> id in records) && (id in after ==> after[id] == records[id])
  {
    if journal != [] {
      SpeaksLast(journal, id);
      UntouchedKey(journal[..|journal| - 1], records, id);
    }
  }

  lemma PrefixSpeaks(journal: seq<Entry>, k: nat, id: string)
    requires k <= |journal|
    ensures Speaks(journal[..k], id) ==> Speaks(journal, id)
  {
    if i :| 0 <= i < k && journal[..k][i].id == id {
      assert journal[i].id == id;
    }
  }

  // Replaying a journal over records it, or a part of it, was already replayed into gives what
  // replaying it once gives.
  lemma ReplayAgain(journal: seq<Entry>, k: nat, records: Records)
    requires k <= |journal|
    ensures Replay(journal, Replay(journal[..k], records)) == Replay(journal, records)
  {
    var half := Replay(journal[..k], records);
    forall id
      ensures var x, y := Replay(journal, half), Replay(journal, records);
              (id in x <==> id in y) && (id in x ==> x[id] == y[id])
    {
      PrefixSpeaks(journal, k, id);
      if !Speaks(journal, id) {
        UntouchedKey(journal[..k], records, id);
      }
      AtKey(journal, half, records, id);
    }
  }

  lemma AppendedReplay(journal: seq<Entry>, e: Entry, records: Records)
    ensures Replay(journal + [e], records) == Applied(Replay(journal, records), e)
  {
    assert (journal + [e])[..|journal|] == journal;
  }

  // Once journalled an entry is in every read, and writing the snapshot it leads to changes none.
  lemma Journalled(d: Disk, e: Entry)
    ensures var grown := d.(journal := d.journal + [e]); var reread := Applied(Current(grown), e);
            && Current(grown) == Applied(Current(d), e)
            && reread == Current(grown)
            && Current(grown.(snapshot := reread)) == Current(grown)
  {
    AppendedReplay(d.journal, e, d.snapshot);
    var journal := d.journal + [e];
    ReplayAgain(journal, |journal|, d.snapshot);
    assert journal[..|journal|] == journal;
  }

  // ----- The store -----

  // How far an operation gets before the process dies.
  datatype Cut = Completes | BeforeFirstWrite | BetweenWrites

  class Store {
    var disk: Disk
    // The records as this process last read them.
    var memo: Option<Records>

    ghost predicate Valid()
      reads this
    {
      memo.Some? ==> memo.value == Current(disk)
    }

    constructor (disk: Disk)
      ensures Valid() && this.disk == disk
    {
      this.disk := disk;
      memo := None;
    }

    method ReadAll() returns (records: Records)
      requires Valid()
      modifies this`memo
      ensures Valid() && records == Current(disk)
    {
      if memo.None? {
        memo := Some(Replay(disk.journal, disk.snapshot));
      }
      records := memo.value;
    }

    method Find(id: string) returns (state: Option<string>)
      requires Valid()
      modifies this`memo
      ensures Valid() && state == if id in Current(disk) then Some(Current(disk)[id]) else None
    {
      var records := ReadAll();
      state := if id in records then Some(records[id]) else None;
    }

    // Journals an entry, then writes the snapshot it leads to. A crash loses what was only in memory;
    // the next process reads the disk.
    method Write(e: Entry, cut: Cut)
      requires Valid()
      modifies this
      ensures Valid()
      ensures Current(disk) == if cut.BeforeFirstWrite? then Current(old(disk)) else Applied(Current(old(disk)), e)
      ensures disk.journal == if cut.BeforeFirstWrite? then old(disk).journal else old(disk).journal + [e]
    {
      if cut.BeforeFirstWrite? {
        memo := None;
        return;
      }
      hide Replay, Applied;
      Journalled(disk, e);
      disk := disk.(journal := disk.journal + [e]);
      memo := None;
      if cut.BetweenWrites? {
        return;
      }
      var reread := Applied(Replay(disk.journal, disk.snapshot), e);
      disk := disk.(snapshot := reread);
      memo := Some(reread);
    }

    method Save(id: string, state: string, cut: Cut)
      requires Valid()
      modifies this
      ensures Valid()
      ensures Current(disk) == if cut.BeforeFirstWrite? then Current(old(disk)) else Current(old(disk))[id := state]
    {
      Write(Saved(id, state), cut);
    }

    // Nothing is journalled for a record that is not there.
    method Delete(id: string, cut: Cut) returns (deleted: bool)
      requires Valid()
      modifies this
      ensures Valid() && deleted == (id in Current(old(disk)))
      ensures !deleted ==> disk == old(disk)
      ensures deleted ==>
              Current(disk) == if cut.BeforeFirstWrite? then Current(old(disk)) else Current(old(disk)) - {id}
    {
      var found := Find(id);
      deleted := found.Some?;
      if deleted {
        Write(Deleted(id), cut);
      }
    }

    // Folds the journal into the snapshot, then empties it. Every read finds what it found before,
    // wherever a crash falls.
    method Compact(cut: Cut)
      requires Valid()
      modifies this
      ensures Valid() && Current(disk) == Current(old(disk))
      ensures disk == Compacted(old(disk), cut)
    {
      if cut.BeforeFirstWrite? {
        memo := None;
        return;
      }
      var current := Replay(disk.journal, disk.snapshot);
      ReplayAgain(disk.journal, |disk.journal|, disk.snapshot);
      assert disk.journal[..|disk.journal|] == disk.journal;
      disk := disk.(snapshot := current);
      memo := None;
      if cut.BetweenWrites? {
        return;
      }
      disk := disk.(journal := []);
      memo := Some(current);
    }
  }

  function Compacted(d: Disk, cut: Cut): Disk {
    match cut
    case BeforeFirstWrite => d
    case BetweenWrites => d.(snapshot := Current(d))
    case Completes => Disk(Current(d), [])
  }

  // ----- Compacting a domain -----

  // A journal that can be compacted; `bound` when a projection reads it in full.
  datatype Candidate = Candidate(disk: Disk, bound: bool)

  datatype Line = RefusedBound | Skipped | DryRun(entries: nat) | Discarded(entries: nat)

  // What compacting would do, read off without doing it.
  function Preview(candidates: seq<Candidate>): seq<Line> {
    seq(|candidates|, i requires 0 <= i < |candidates| =>
      if candidates[i].bound then RefusedBound
      else if candidates[i].disk.journal == [] then Skipped else DryRun(|candidates[i].disk.journal|))
  }

  class Compaction {
    var candidates: seq<Candidate>

    constructor (candidates: seq<Candidate>)
      ensures this.candidates == candidates
    {
      this.candidates := candidates;
    }

    method AnyBound() returns (any: bool)
      ensures any <==> RefusedBound in Preview(candidates)
    {
      var k := 0;
      while k < |candidates|
        invariant 0 <= k <= |candidates|
        invariant forall i :: 0 <= i < k ==> !candidates[i].bound
      {
        if candidates[k].bound {
          assert Preview(candidates)[k] == RefusedBound;
          return true;
        }
        k := k + 1;
      }
      any := false;
    }

    // Refuses them all when one is bound; else empties every journal that holds anything, says what
    // the preview said, and leaves every read as it was.
    method Apply() returns (lines: Option<seq<Line>>)
      modifies this
      ensures lines.None? <==> RefusedBound in Preview(old(candidates))
      ensures lines.None? ==> candidates == old(candidates)
      ensures lines.Some? ==> |candidates| == |old(candidates)| == |lines.value|
      ensures lines.Some? ==> forall i :: 0 <= i < |candidates| ==>
                && candidates[i].disk.journal == []
                && Current(candidates[i].disk) == Current(old(candidates)[i].disk)
                && candidates[i].bound == old(candidates)[i].bound
                && (match Preview(old(candidates))[i]
                    case DryRun(n) => lines.value[i] == Discarded(n)
                    case said => lines.value[i] == said && candidates[i] == old(candidates)[i])
    {
      var refused := AnyBound();
      if refused {
        return None;
      }
      var said: seq<Line> := [];
      var k := 0;
      while k < |candidates|
        invariant 0 <= k <= |candidates| == |old(candidates)| && |said| == k
        invariant forall i :: k <= i < |candidates| ==> candidates[i] == old(candidates)[i]
        invariant forall i :: 0 <= i < k ==>
                    candidates[i] == old(candidates)[i].(disk := Compacted(old(candidates)[i].disk, Completes))
                    || (old(candidates)[i].disk.journal == [] && candidates[i] == old(candidates)[i])
        invariant forall i :: 0 <= i < k ==>
                    said[i] == if old(candidates)[i].disk.journal == [] then Skipped
                               else Discarded(|old(candidates)[i].disk.journal|)
        invariant forall i :: 0 <= i < k && old(candidates)[i].disk.journal == [] ==>
                  candidates[i] == old(candidates)[i]
      {
        var disk := candidates[k].disk;
        if disk.journal == [] {
          said := said + [Skipped];
        } else {
          said := said + [Discarded(|disk.journal|)];
          candidates := candidates[k := candidates[k].(disk := Compacted(disk, Completes))];
        }
        k := k + 1;
      }
      forall i | 0 <= i < |candidates| ensures !old(candidates)[i].bound {
        assert Preview(old(candidates))[i] in Preview(old(candidates));
      }
      lines := Some(said);
    }
  }

  // A second compaction finds nothing to do.
  lemma CompactedTwice(d: Disk)
    ensures Compacted(Compacted(d, Completes), Completes) == Compacted(d, Completes)
    ensures Preview([Candidate(Compacted(d, Completes), false)]) == [Skipped]
  {
  }

  // ----- Runs -----

  datatype Step = Put(e: Entry, cut: Cut) | Fold(cut: Cut)

  function Next(d: Disk, step: Step): Disk {
    match step
    case Fold(cut) => Compacted(d, cut)
    case Put(e, cut) =>
      match cut
      case BeforeFirstWrite => d
      case BetweenWrites => d.(journal := d.journal + [e])
      case Completes => Disk(Applied(Current(d), e), d.journal + [e])
  }

  function Run(d: Disk, steps: seq<Step>): Disk
    decreases |steps|
  {
    if steps == [] then d else Run(Next(d, steps[0]), steps[1..])
  }

  // Every entry that reached the journal, whether or not it was discarded since.
  function History(steps: seq<Step>): seq<Entry> {
    if steps == [] then []
    else (if steps[0].Put? && !steps[0].cut.BeforeFirstWrite? then [steps[0].e] else []) + History(steps[1..])
  }

  lemma {:induction false} ReplayBoth(a: seq<Entry>, b: seq<Entry>, records: Records)
    ensures Replay(a + b, records) == Replay(b, Replay(a, records))
    decreases |b|
  {
    if b == [] {
      assert a + b == a;
    } else {
      assert (a + b)[..|a + b| - 1] == a + b[..|b| - 1];
      ReplayBoth(a, b[..|b| - 1], records);
    }
  }

  lemma NextReads(d: Disk, step: Step)
    ensures Current(Next(d, step)) ==
            if step.Put? && !step.cut.BeforeFirstWrite? then Applied(Current(d), step.e) else Current(d)
  {
    if step.Put? {
      Journalled(d, step.e);
    } else {
      ReplayAgain(d.journal, |d.journal|, d.snapshot);
      assert d.journal[..|d.journal|] == d.journal;
    }
  }

  // Through saves, deletes, compactions and crashes at any point, a read finds what replaying every
  // entry ever journalled over the first snapshot gives.
  lemma {:induction false} ReadsAreHistory(d: Disk, steps: seq<Step>)
    ensures Current(Run(d, steps)) == Replay(History(steps), Current(d))
    decreases |steps|
  {
    if steps != [] {
      NextReads(d, steps[0]);
      ReadsAreHistory(Next(d, steps[0]), steps[1..]);
      if steps[0].Put? && !steps[0].cut.BeforeFirstWrite? {
        ReplayBoth([steps[0].e], History(steps[1..]), Current(d));
        assert [steps[0].e][..0] == [];
      } else {
        assert [] + History(steps[1..]) == History(steps[1..]);
      }
    }
  }
}
