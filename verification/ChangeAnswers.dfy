// What a change's script port reads: the script as it is registered just then, its plan for the digest and
// its report for the run.
module ChangeAnswers {
  import opened Wrappers
  import opened Change

  // Registering a script replaces that one alone, and forgetting drops them all; no change is touched.
  lemma RegistersOne(w: World, name: string, body: Script)
    ensures var after := After(w, Register(name, body));
            && after.changes == w.changes && after.done == w.done
            && name in after.scripts && after.scripts[name] == body
            && forall other :: other != name ==>
                 (other in after.scripts <==> other in w.scripts)
                 && (other in w.scripts ==> other in after.scripts && after.scripts[other] == w.scripts[other])
    ensures After(w, Forget).scripts == map[] && After(w, Forget).changes == w.changes
            && After(w, Forget).done == w.done
  {
  }

  // A requested change is planned by what its script plans now, and faulted where it plans nothing.
  lemma PlannedByItsScript(w: World, run: string, body: Script)
    requires run in w.changes && w.changes[run].status.Requested? && w.changes[run].asked.Examine?
    ensures var c := w.changes[run];
            var after := After(After(w, Register(c.script, body)), Examined(run));
            && after.done == w.done && after.changes.Keys == w.changes.Keys
            && after.changes[run] ==
                 (if c.arguments in body.plan
                  then Change(c.script, c.arguments, Planned,
                      Some(Digest(c.script, c.arguments, body.plan[c.arguments])),
                              c.report, Nothing)
                  else Change(c.script, c.arguments, Faulted, c.plannedDigest, c.report, Nothing))
            && After(After(w, Forget), Examined(run)).changes[run]
               == Change(c.script, c.arguments, Faulted, c.plannedDigest, c.report, Nothing)
  {
  }

  // A confirmed change is run by its script as registered now: at all exactly when that plans what was
  // confirmed, and then applied with the report of its `apply`, or faulted where that raises.
  lemma PerformedByItsScript(w: World, run: string, body: Script)
    requires run in w.changes && w.changes[run].status.Confirmed? && w.changes[run].asked.Perform?
    ensures var c := w.changes[run];
            var after := After(After(w, Register(c.script, body)), Performed(run));
            var unmoved := c.arguments in body.plan
                           && c.plannedDigest == Some(Digest(c.script, c.arguments, body.plan[c.arguments]));
            var raises := c.arguments !in body.apply;
            && after.done == w.done + (if unmoved then [Invocation(run, c.plannedDigest.value, !raises)] else [])
            && after.changes[run] ==
                 (if unmoved && !raises
                  then Change(c.script, c.arguments, Applied, c.plannedDigest, Some(body.apply[c.arguments]), Nothing)
                  else Change(c.script, c.arguments, Faulted, c.plannedDigest, c.report, Nothing))
  {
  }

  // By hand a change is planned only while requested, completed only while confirmed, and faulted unless
  // it has ended; nothing else of it changes.
  lemma ByHand(w: World, run: string, digest: Digest, report: string)
    requires run in w.changes
    ensures var c := w.changes[run];
            var planned, completed, faulted :=
              After(w, PlanByHand(run, digest)), After(w, CompleteByHand(run, report)), After(w, FaultByHand(run));
            && planned.changes[run]
               == (if c.status == Requested
                   then Change(c.script, c.arguments, Planned, Some(digest), c.report, c.asked) else c)
            && completed.changes[run]
               == (if c.status == Confirmed
                   then Change(c.script, c.arguments, Applied, c.plannedDigest, Some(report), c.asked) else c)
            && faulted.changes[run]
               == (if c.status == Applied || c.status == Faulted then c
                   else Change(c.script, c.arguments, Faulted, c.plannedDigest, c.report, c.asked))
            && planned.scripts == completed.scripts == faulted.scripts == w.scripts
            && planned.done == completed.done == faulted.done == w.done
  {
  }
}
