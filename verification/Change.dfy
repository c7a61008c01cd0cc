// A change a script makes: planned, shown, confirmed by the digest of that plan, and carried out only
// while the script still plans the same. Commands, and the answers of the script port, may interleave
// in any order; scripts may be registered anew in between.
module Change {
  import opened Wrappers

  type Arguments = seq<(string, string)>

  // What a script answers now, for any arguments: its plan and its report, nothing where it raises.
  datatype Script = Script(plan: imap<Arguments, string>, apply: imap<Arguments, string>)

  function AnswerOf(answers: imap<Arguments, string>, arguments: Arguments): Option<string> {
    if arguments in answers then Some(answers[arguments]) else None
  }

  type Registry = map<string, Script>

  // The digest stands for the script, its arguments and its plan; two that differ are told apart.
  datatype Digest = Digest(script: string, arguments: Arguments, plan: string)

  datatype Status = Requested | Planned | Confirmed | Applied | Faulted

  // What the script port has been asked and has not yet answered.
  datatype Asked = Nothing | Examine | Perform

  datatype Change = Change(
    script: string,
    arguments: Arguments,
    status: Status,
    plannedDigest: Option<Digest>,
    report: Option<string>,
    asked: Asked)

  // One run of a script's apply, and the digest of its plan just then.
  datatype Invocation = Invocation(run: string, digest: Digest, finished: bool)

  datatype World = World(changes: map<string, Change>, scripts: Registry, done: seq<Invocation>)

  datatype Step =
    | Request(run: string, script: string, arguments: Arguments)
    | PlanByHand(run: string, digest: Digest)
    | Examined(run: string)
    | Confirm(run: string, digest: Digest)
    | Performed(run: string)
    | FaultByHand(run: string)
    | CompleteByHand(run: string, report: string)
    | Register(name: string, body: Script)
    | Forget

  function DigestNow(scripts: Registry, c: Change): Option<Digest> {
    if c.script !in scripts then None
    else match AnswerOf(scripts[c.script].plan, c.arguments)
         case None => None
         case Some(text) => Some(Digest(c.script, c.arguments, text))
  }

  predicate MayFault(c: Change) { c.status.Requested? || c.status.Planned? || c.status.Confirmed? }

  function Fault(c: Change): Change {
    if MayFault(c) then c.(status := Faulted) else c
  }

  function Plan(c: Change, digest: Digest): Change {
    if c.status.Requested? then c.(status := Planned, plannedDigest := Some(digest)) else c
  }

  function Complete(c: Change, report: string): Change {
    if c.status.Confirmed? then c.(status := Applied, report := Some(report)) else c
  }

  // The port's answer to `perform`: it plans again, and runs the script only when the digest is still
  // the one planned. It does not look at the status.
  function Answered(scripts: Registry, c: Change): (Change, Option<(Digest, bool)>) {
    var answered := c.(asked := Nothing);
    var now := DigestNow(scripts, c);
    if now.None? || now != c.plannedDigest then (Fault(answered), None)
    else match AnswerOf(scripts[c.script].apply, c.arguments)
         case None => (Fault(answered), Some((now.value, false)))
         case Some(report) => (Complete(answered, report), Some((now.value, true)))
  }

  function Put(w: World, run: string, c: Change): World { w.(changes := w.changes[run := c]) }

  function After(w: World, step: Step): World {
    match step
    case Request(run, script, arguments) =>
      if run in w.changes || run == "" || script == "" then w
      else Put(w, run, Change(script, arguments, Requested, None, None, Examine))
    case PlanByHand(run, digest) => if run in w.changes then Put(w, run, Plan(w.changes[run], digest)) else w
    case Examined(run) =>
      if run !in w.changes || !w.changes[run].asked.Examine? then w
      else
        var c := w.changes[run].(asked := Nothing);
        var digest := DigestNow(w.scripts, c);
        Put(w, run, if digest.None? then Fault(c) else Plan(c, digest.value))
    case Confirm(run, digest) =>
      if run !in w.changes || !w.changes[run].status.Planned? || w.changes[run].plannedDigest != Some(digest) then w
      else Put(w, run, w.changes[run].(status := Confirmed, asked := Perform))
    case Performed(run) =>
      if run !in w.changes || !w.changes[run].asked.Perform? then w
      else
        var (c, ran) := Answered(w.scripts, w.changes[run]);
        Put(w, run, c).(done := if ran.None? then w.done else w.done + [Invocation(run, ran.value.0, ran.value.1)])
    case FaultByHand(run) => if run in w.changes then Put(w, run, Fault(w.changes[run])) else w
    case CompleteByHand(run, report) => if run in w.changes then Put(w, run, Complete(w.changes[run], report)) else w
    case Register(name, body) => w.(scripts := w.scripts[name := body])
    case Forget => w.(scripts := map[])
  }

  function Run(w: World, steps: seq<Step>): World
    decreases |steps|
  {
    if steps == [] then w else Run(After(w, steps[0]), steps[1..])
  }

  // ----- What every run keeps -----

  function Times(done: seq<Invocation>, run: string): nat {
    if done == [] then 0 else Times(done[..|done| - 1], run) + if done[|done| - 1].run == run then 1 else 0
  }

  // How a change stands to what was run for it.
  ghost predicate Kept(run: string, c: Change, done: seq<Invocation>) {
    && Times(done, run) <= 1
    && (c.status.Requested? || c.status.Planned? || c.asked.Perform? ==> Times(done, run) == 0)
    && (c.status.Confirmed? ==> c.asked.Perform? && c.plannedDigest.Some?)
    && (c.asked.Perform? ==> c.status.Confirmed? || c.status.Faulted? || c.status.Applied?)
    && (c.status.Planned? ==> c.plannedDigest.Some?)
  }

  ghost predicate Sound(w: World) {
    && (forall run :: run in w.changes ==> Kept(run, w.changes[run], w.done))
    && (forall run :: run !in w.changes ==> Times(w.done, run) == 0)
    && (forall i :: 0 <= i < |w.done| ==> w.done[i].run in w.changes)
    && (forall i :: 0 <= i < |w.done| ==> w.changes[w.done[i].run].plannedDigest == Some(w.done[i].digest))
  }

  lemma OneMore(done: seq<Invocation>, i: Invocation, run: string)
    ensures Times(done + [i], run) == Times(done, run) + if i.run == run then 1 else 0
  {
    assert (done + [i])[..|done|] == done;
  }

  lemma {:induction false} InvokedIsCounted(done: seq<Invocation>, i: nat)
    requires i < |done|
    ensures Times(done, done[i].run) > 0
  {
    var n := |done| - 1;
    if i < n {
      InvokedIsCounted(done[..n], i);
    }
  }

  // What the port's answer leaves of the change.
  lemma AnswerLeaves(scripts: Registry, c: Change)
    requires c.asked.Perform? && (c.status.Confirmed? || c.status.Faulted? || c.status.Applied?)
    ensures var (next, ran) := Answered(scripts, c);
            && next.asked.Nothing? && next.plannedDigest == c.plannedDigest
            && (next.status.Applied? || next.status.Faulted?)
            && (next.status.Applied? && !c.status.Applied? ==> ran.Some? && ran.value.1)
            && (ran.Some? ==> Some(ran.value.0) == c.plannedDigest)
  {
  }

  // A run with none of it done yet, and one invocation added.
  lemma RanKeeps(w: World, run: string, next: Change, invocation: Invocation)
    requires Sound(w) && run in w.changes && Times(w.done, run) == 0 && invocation.run == run
    requires next.asked.Nothing? && (next.status.Applied? || next.status.Faulted?)
    requires next.plannedDigest == Some(invocation.digest)
    ensures Sound(Put(w, run, next).(done := w.done + [invocation]))
  {
    hide Times, Kept;
    var done := w.done + [invocation];
    var after := Put(w, run, next).(done := done);
    forall i | 0 <= i < |w.done| ensures w.done[i].run != run && done[i] == w.done[i] {
      InvokedIsCounted(w.done, i);
    }
    forall other | other in after.changes ensures Kept(other, after.changes[other], done) {
      KeptBeside(w, run, next, invocation, other);
    }
    forall other | other !in after.changes ensures Times(done, other) == 0 {
      OneMore(w.done, invocation, other);
    }
  }

  lemma KeptBeside(w: World, run: string, next: Change, invocation: Invocation, other: string)
    requires Sound(w) && run in w.changes && Times(w.done, run) == 0 && invocation.run == run
    requires next.asked.Nothing? && (next.status.Applied? || next.status.Faulted?) && next.plannedDigest.Some?
    requires other in w.changes
    ensures Kept(other, if other == run then next else w.changes[other], w.done + [invocation])
  {
    OneMore(w.done, invocation, other);
  }

  lemma PerformKeeps(w: World, run: string)
    requires Sound(w) && run in w.changes && w.changes[run].asked.Perform?
    ensures Sound(After(w, Performed(run)))
  {
    hide Answered, Times;
    var c := w.changes[run];
    var (next, ran) := Answered(w.scripts, c);
    AnswerLeaves(w.scripts, c);
    if ran.Some? {
      RanKeeps(w, run, next, Invocation(run, ran.value.0, ran.value.1));
    } else {
      ChangedAlone(w, run, next);
    }
  }

  lemma ChangedAlone(w: World, run: string, c: Change)
    requires Sound(w) && Kept(run, c, w.done)
    requires run in w.changes && Times(w.done, run) > 0 ==> c.plannedDigest == w.changes[run].plannedDigest
    ensures Sound(Put(w, run, c))
  {
    hide Times, Kept;
    forall i | 0 <= i < |w.done| && w.done[i].run == run ensures Times(w.done, run) > 0 {
      InvokedIsCounted(w.done, i);
    }
    var after := Put(w, run, c);
    assert after.done == w.done;
    forall i | 0 <= i < |w.done| ensures after.changes[w.done[i].run].plannedDigest == Some(w.done[i].digest) {
      assert w.changes[w.done[i].run].plannedDigest == Some(w.done[i].digest);
    }
  }

  lemma StepKeeps(w: World, step: Step)
    requires Sound(w)
    ensures Sound(After(w, step))
  {
    var after := After(w, step);
    match step {
      case Request(run, script, arguments) =>
        if after != w {
          ChangedAlone(w, run, after.changes[run]);
        }
      case PlanByHand(run, _) =>
        if run in w.changes {
          ChangedAlone(w, run, after.changes[run]);
        }
      case Examined(run) =>
        if run in w.changes && w.changes[run].asked.Examine? {
          ChangedAlone(w, run, after.changes[run]);
        }
      case Confirm(run, _) =>
        if run in w.changes {
          ChangedAlone(w, run, after.changes[run]);
        }
      case Performed(run) =>
        if run in w.changes && w.changes[run].asked.Perform? {
          PerformKeeps(w, run);
        }
      case FaultByHand(run) =>
        if run in w.changes {
          ChangedAlone(w, run, after.changes[run]);
        }
      case CompleteByHand(run, _) =>
        if run in w.changes {
          ChangedAlone(w, run, after.changes[run]);
        }
      case Register(_, _) =>
      case Forget =>
    }
  }

  // In every run a change's script is run at most once, never before its confirm, and only as the
  // plan whose digest was confirmed.
  lemma {:induction false} AppliedAtMostOnce(w: World, steps: seq<Step>)
    requires Sound(w)
    ensures Sound(Run(w, steps))
    decreases |steps|
  {
    if steps != [] {
      StepKeeps(w, steps[0]);
      AppliedAtMostOnce(After(w, steps[0]), steps[1..]);
    }
  }

  // An applied change ran, once and to its end; and the port is not still asked to run it.
  ghost predicate AppliedRan(w: World, run: string) {
    run in w.changes && w.changes[run].status.Applied? ==>
      && !w.changes[run].asked.Perform? && Times(w.done, run) == 1
      && forall i :: 0 <= i < |w.done| && w.done[i].run == run ==> w.done[i].finished
  }

  // Completing a confirmed change by hand, and nothing else, makes an applied change that never ran.
  lemma OnlyHandsUndoIt(w: World, step: Step, run: string)
    requires Sound(w) && AppliedRan(w, run)
    ensures AppliedRan(After(w, step), run) <==>
            !(step.CompleteByHand? && step.run == run && run in w.changes && w.changes[run].status.Confirmed?)
  {
    var after := After(w, step);
    if step == Performed(run) && run in w.changes && w.changes[run].asked.Perform? {
      PerformedRan(w, run);
    } else if after.done != w.done {
      OtherRan(w, step, run);
    }
  }

  lemma PerformedRan(w: World, run: string)
    requires Sound(w) && AppliedRan(w, run) && run in w.changes && w.changes[run].asked.Perform?
    ensures AppliedRan(After(w, Performed(run)), run)
  {
    hide Answered, Times;
    var c := w.changes[run];
    var (next, ran) := Answered(w.scripts, c);
    AnswerLeaves(w.scripts, c);
    if ran.Some? {
      var invocation := Invocation(run, ran.value.0, ran.value.1);
      OneMore(w.done, invocation, run);
      forall i | 0 <= i < |w.done| ensures w.done[i].run != run { InvokedIsCounted(w.done, i); }
    }
  }

  lemma OtherRan(w: World, step: Step, run: string)
    requires AppliedRan(w, run) && step.Performed? && step.run != run
    ensures AppliedRan(After(w, step), run)
  {
    hide Answered, Times;
    if step.run in w.changes && w.changes[step.run].asked.Perform? {
      var (next, ran) := Answered(w.scripts, w.changes[step.run]);
      if ran.Some? {
        OneMore(w.done, Invocation(step.run, ran.value.0, ran.value.1), run);
      }
    }
  }

  // So in every run in which it is not completed by hand, an applied change ran, once and to its end.
  lemma {:induction false} AppliedRanUnlessByHand(w: World, steps: seq<Step>, run: string)
    requires Sound(w) && AppliedRan(w, run)
    requires forall i :: 0 <= i < |steps| ==> !(steps[i].CompleteByHand? && steps[i].run == run)
    ensures AppliedRan(Run(w, steps), run)
    decreases |steps|
  {
    if steps != [] {
      StepKeeps(w, steps[0]);
      OnlyHandsUndoIt(w, steps[0], run);
      AppliedRanUnlessByHand(After(w, steps[0]), steps[1..], run);
    }
  }

  const NOTHING: Arguments := []
  const UNREGISTERED := Digest("tidy", NOTHING, "")

  // A change whose script does not even exist, planned, confirmed and completed by hand: it is applied,
  // nothing ran, and nothing will.
  lemma AppliedWithoutRunning()
    ensures var w := Run(World(map[], map[], []),
                         [Request("r", "tidy", NOTHING), PlanByHand("r", UNREGISTERED), Confirm("r", UNREGISTERED),
                          CompleteByHand("r", "done"), Performed("r")]);
            "r" in w.changes && w.changes["r"].status.Applied? && w.changes["r"].asked.Nothing? && w.done == []
  {
    var start := World(map[], map[], []);
    var asked := Change("tidy", NOTHING, Requested, None, None, Examine);
    var planned := asked.(status := Planned, plannedDigest := Some(UNREGISTERED));
    var confirmed := planned.(status := Confirmed, asked := Perform);
    var completed := confirmed.(status := Applied, report := Some("done"));
    var w1, w2, w3, w4 :=
        Put(start, "r", asked), Put(start, "r", planned), Put(start, "r", confirmed), Put(start, "r", completed);
    assert After(start, Request("r", "tidy", NOTHING)) == w1;
    assert After(w1, PlanByHand("r", UNREGISTERED)) == w2;
    assert After(w2, Confirm("r", UNREGISTERED)) == w3;
    assert After(w3, CompleteByHand("r", "done")) == w4;
    var w5 := Put(start, "r", completed.(asked := Nothing));
    assert After(w4, Performed("r")) == w5;
    assert Run(w4, [Performed("r")]) == Run(w5, []) by { assert [Performed("r")][1..] == []; }
    assert Run(w3, [CompleteByHand("r", "done"), Performed("r")]) == w5;
    assert Run(w2, [Confirm("r", UNREGISTERED), CompleteByHand("r", "done"), Performed("r")]) == w5;
    assert Run(w1, [PlanByHand("r", UNREGISTERED), Confirm("r", UNREGISTERED), CompleteByHand("r", "done"),
        Performed("r")]) == w5;
  }

  // A script runs for a change exactly when the port is asked and its plan still has the planned
  // digest; a change not yet applied then ends applied exactly when it was still confirmed as well and
  // the script did not raise, and ends faulted otherwise.
  lemma RunsExactlyWhenUnmoved(w: World, run: string)
    requires Sound(w) && run in w.changes && w.changes[run].asked.Perform?
    ensures var c := w.changes[run]; var after := After(w, Performed(run)); var now := DigestNow(w.scripts, c);
            && (|after.done| > |w.done| <==> now.Some? && now == c.plannedDigest)
            && (after.changes[run].status.Applied? <==>
                  c.status.Applied?
                  || (now.Some? && now == c.plannedDigest && c.status.Confirmed?
                      && c.arguments in w.scripts[c.script].apply))
            && (after.changes[run].status.Applied? || after.changes[run].status.Faulted?)
            && !after.changes[run].asked.Perform?
  {
  }

  // A fault recorded after the confirm does not stop the script: the change ends faulted, and its
  // script runs all the same unless the plan moved.
  lemma FaultDoesNotStopIt(w: World, run: string)
    requires Sound(w) && run in w.changes && w.changes[run].status.Confirmed?
    ensures var faulted := After(w, FaultByHand(run)); var after := After(faulted, Performed(run));
            && after.changes[run].status.Faulted?
            && (|after.done| > |w.done| <==> DigestNow(w.scripts, w.changes[run]) == w.changes[run].plannedDigest)
  {
  }

  lemma EndedStays(w: World, step: Step, run: string)
    requires run in w.changes && w.changes[run].asked.Nothing?
    requires w.changes[run].status.Applied? || w.changes[run].status.Faulted?
    ensures run in After(w, step).changes && After(w, step).changes[run] == w.changes[run]
  {
    hide Answered, DigestNow;
  }

  // Once applied or faulted, and nothing is asked of the port any more, a change is as it is for good.
  lemma {:induction false} EndedForGood(w: World, steps: seq<Step>, run: string)
    requires run in w.changes && w.changes[run].asked.Nothing?
    requires w.changes[run].status.Applied? || w.changes[run].status.Faulted?
    ensures run in Run(w, steps).changes && Run(w, steps).changes[run] == w.changes[run]
    decreases |steps|
  {
    if steps != [] {
      EndedStays(w, steps[0], run);
      EndedForGood(After(w, steps[0]), steps[1..], run);
    }
  }

  // ----- The records as the commands and the port update them -----

  class Changes {
    var changes: map<string, Change>
    var scripts: Registry
    var done: seq<Invocation>

    ghost function Abs(): World
      reads this
    {
      World(changes, scripts, done)
    }

    constructor ()
      ensures Abs() == World(map[], map[], []) && Sound(Abs())
    {
      changes, scripts, done := map[], map[], [];
    }

    method RequestChange(run: string, script: string, arguments: Arguments) returns (accepted: bool)
      requires Sound(Abs())
      modifies this`changes
      ensures Abs() == After(old(Abs()), Request(run, script, arguments)) && Sound(Abs())
      ensures accepted <==> run !in old(changes) && run != "" && script != ""
      ensures changes == if accepted
                         then old(changes)[run := Change(script, arguments, Requested, None, None, Examine)]
                         else old(changes)
    {
      StepKeeps(Abs(), Request(run, script, arguments));
      accepted := run !in changes && run != "" && script != "";
      if accepted {
        changes := changes[run := Change(script, arguments, Requested, None, None, Examine)];
      }
    }

    // The port's `examine`: the plan is recorded, or the refusal.
    method AnswerExamine(run: string)
      requires Sound(Abs()) && run in changes && changes[run].asked.Examine?
      modifies this`changes
      ensures Abs() == After(old(Abs()), Examined(run)) && Sound(Abs())
    {
      StepKeeps(Abs(), Examined(run));
      var c := changes[run].(asked := Nothing);
      var digest := DigestNow(scripts, c);
      if digest.None? {
        c := Fault(c);
      } else if c.status.Requested? {
        c := c.(status := Planned, plannedDigest := digest);
      }
      changes := changes[run := c];
    }

    method ConfirmDigest(run: string, digest: Digest) returns (accepted: bool)
      requires Sound(Abs())
      modifies this`changes
      ensures Abs() == After(old(Abs()), Confirm(run, digest)) && Sound(Abs())
      ensures accepted <==> run in old(changes) && old(changes)[run].status.Planned?
                            && old(changes)[run].plannedDigest == Some(digest)
      ensures changes == if accepted then old(changes)[run := old(changes)[run].(status := Confirmed, asked := Perform)]
                         else old(changes)
    {
      StepKeeps(Abs(), Confirm(run, digest));
      accepted := run in changes && changes[run].status.Planned? && changes[run].plannedDigest == Some(digest);
      if accepted {
        changes := changes[run := changes[run].(status := Confirmed, asked := Perform)];
      }
    }

    // The command a maintainer's system role may send, as the port's answer does.
    method CompleteChange(run: string, report: string) returns (accepted: bool)
      requires Sound(Abs())
      modifies this`changes
      ensures Abs() == After(old(Abs()), CompleteByHand(run, report)) && Sound(Abs())
      ensures accepted <==> run in old(changes) && old(changes)[run].status.Confirmed?
      ensures changes == if accepted
                         then old(changes)[run := old(changes)[run].(status := Applied, report := Some(report))]
                         else old(changes)
    {
      StepKeeps(Abs(), CompleteByHand(run, report));
      accepted := run in changes && changes[run].status.Confirmed?;
      if accepted {
        changes := changes[run := changes[run].(status := Applied, report := Some(report))];
      }
      assert Abs().changes == After(old(Abs()), CompleteByHand(run, report)).changes;
    }

    // The port's `perform`: it plans again, and runs the script only when its plan has not moved.
    method AnswerPerform(run: string) returns (ran: bool)
      requires Sound(Abs()) && run in changes && changes[run].asked.Perform?
      modifies this`changes, this`done
      ensures Abs() == After(old(Abs()), Performed(run)) && Sound(Abs())
      ensures ran <==> |done| > |old(done)|
    {
      StepKeeps(Abs(), Performed(run));
      var c := changes[run];
      var now := DigestNow(scripts, c);
      c := c.(asked := Nothing);
      if now.None? || now != c.plannedDigest {
        changes := changes[run := Fault(c)];
        return false;
      }
      var report := AnswerOf(scripts[c.script].apply, c.arguments);
      done := done + [Invocation(run, now.value, report.Some?)];
      if report.None? {
        c := Fault(c);
      } else if c.status.Confirmed? {
        c := c.(status := Applied, report := report);
      }
      changes := changes[run := c];
      ran := true;
    }
  }
}
