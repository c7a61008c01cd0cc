// The composer's background jobs: one at a time, raced by its worker, a cancel and a watchdog. Every
// section under the mutex is one step, so a run is any sequence of them.
module Jobs {
  import opened Wrappers

  const OUTPUT_LIMIT: nat := 20_000

  datatype Status = Idle | Running | Done | Failed | Cancelled | TimedOut

  datatype State = State(
    generation: nat,
    status: Status,
    verb: string,
    startedAt: int,
    finishedAt: int,
    ok: Option<bool>,
    output: string)

  const BLANK := State(0, Idle, "", 0, 0, None, "")

  datatype Step =
    | Start(verb: string, now: int)
    | Cancel(now: int)
    | Conclude(generation: nat, succeeded: bool, output: string, now: int)
    | Wake(generation: nat, deadline: int, now: int)

  // The last characters of an output, up to the limit.
  function Kept(text: string): string {
    if |text| > OUTPUT_LIMIT then text[|text| - OUTPUT_LIMIT..] else text
  }

  function Settled(s: State, status: Status, output: string, now: int): State {
    s.(status := status, finishedAt := now, ok := Some(status == Done), output := Kept(output))
  }

  // Whether a step ends the job `generation`: its own worker's result, its own watchdog past its
  // deadline, or any cancel.
  predicate Ends(step: Step, generation: nat) {
    match step
    case Start(_, _) => false
    case Cancel(_) => true
    case Conclude(g, _, _, _) => g == generation
    case Wake(g, deadline, now) => g == generation && deadline <= now
  }

  // How the job ends when this is the step that ends it.
  function EndedBy(s: State, step: Step): State {
    match step
    case Start(_, _) => s
    case Cancel(now) => Settled(s, Cancelled, "", now)
    case Conclude(_, succeeded, output, now) => Settled(s, if succeeded then Done else Failed, output, now)
    case Wake(_, _, now) => Settled(s, TimedOut, "timed out", now)
  }

  function Started(s: State, verb: string, now: int): State {
    State(s.generation + 1, Running, verb, now, 0, None, "")
  }

  class Runner {
    var generation: nat
    var status: Status
    var verb: string
    var startedAt: int
    var finishedAt: int
    var ok: Option<bool>
    var output: string

    ghost function Abs(): State
      reads this
    {
      State(generation, status, verb, startedAt, finishedAt, ok, output)
    }

    constructor ()
      ensures Abs() == BLANK
    {
      generation, status, verb := 0, Idle, "";
      startedAt, finishedAt, ok, output := 0, 0, None, "";
    }

    // Answers whether it started; a second start while one runs is refused.
    method StartJob(verb: string, now: int) returns (started: bool)
      modifies this
      ensures started <==> old(status) != Running
      ensures Abs() == if started then State(old(generation) + 1, Running, verb, now, 0, None, "") else old(Abs())
    {
      if status == Running {
        return false;
      }
      this.verb, status, startedAt, finishedAt := verb, Running, now, 0;
      ok, output := None, "";
      generation := generation + 1;
      started := true;
    }

    method CancelJob(now: int) returns (cancelled: bool)
      modifies this
      ensures cancelled <==> old(status) == Running
      ensures Abs() == if cancelled
                       then old(Abs()).(status := Cancelled, finishedAt := now, ok := Some(false), output := "")
                       else old(Abs())
    {
      if status != Running {
        return false;
      }
      Settle(Cancelled, "", now);
      cancelled := true;
    }

    // A worker's result; it counts only while its own job is the one running.
    method ConcludeJob(g: nat, succeeded: bool, text: string, now: int)
      modifies this
      ensures Abs() == if g == old(generation) && old(status) == Running
                       then old(Abs()).(status := if succeeded then Done else Failed, finishedAt := now,
                                        ok := Some(succeeded), output := output)
                       else old(Abs())
      ensures g == old(generation) && old(status) == Running ==>
                |output| == (if |text| < 20_000 then |text| else 20_000) && output == text[|text| - |output|..]
    {
      if g == generation && status == Running {
        Settle(if succeeded then Done else Failed, text, now);
      }
    }

    // The watchdog of one job, woken: it waits on while its job runs within the deadline.
    method WakeWatch(g: nat, deadline: int, now: int) returns (waits: bool)
      modifies this
      ensures waits <==> g == old(generation) && old(status) == Running && now < deadline
      ensures Abs() == if g == old(generation) && old(status) == Running && deadline <= now
                       then old(Abs()).(status := TimedOut, finishedAt := now, ok := Some(false), output := "timed out")
                       else old(Abs())
    {
      if g != generation || status != Running {
        return false;
      }
      if now < deadline {
        return true;
      }
      Settle(TimedOut, "timed out", now);
      waits := false;
    }

    method Settle(status: Status, text: string, now: int)
      modifies this`status, this`finishedAt, this`ok, this`output
      ensures Abs() == Settled(old(Abs()), status, text, now)
    {
      output := text;
      if |text| > OUTPUT_LIMIT {
        output := text[|text| - OUTPUT_LIMIT..];
      }
      this.status, finishedAt, ok := status, now, Some(status == Done);
    }

    method Take(step: Step)
      modifies this
      ensures Abs() == Next(old(Abs()), step)
    {
      match step {
        case Start(verb, now) => var _ := StartJob(verb, now);
        case Cancel(now) => var _ := CancelJob(now);
        case Conclude(g, succeeded, text, now) => ConcludeJob(g, succeeded, text, now);
        case Wake(g, deadline, now) => var _ := WakeWatch(g, deadline, now);
      }
    }
  }

  // ----- Runs -----

  // A step starts a job when none runs, ends the one that runs, or changes nothing.
  function Next(s: State, step: Step): State {
    if s.status != Running then (if step.Start? then Started(s, step.verb, step.now) else s)
    else if Ends(step, s.generation) then EndedBy(s, step)
    else s
  }

  function Run(s: State, steps: seq<Step>): State
    decreases |steps|
  {
    if steps == [] then s else Run(Next(s, steps[0]), steps[1..])
  }

  // The first step that ends the job.
  ghost predicate FirstEnding(steps: seq<Step>, generation: nat, k: nat) {
    k < |steps| && Ends(steps[k], generation) && forall i :: 0 <= i < k ==> !Ends(steps[i], generation)
  }

  // Whatever races it, a running job ends by the first step that ends it and by no other: starts
  // before are refused, and no later result, cancel or wake changes how it ended.
  lemma {:induction false} FirstEndingWins(s: State, steps: seq<Step>, k: nat)
    requires s.status == Running && FirstEnding(steps, s.generation, k)
    requires forall i :: k < i < |steps| ==> !steps[i].Start?
    ensures Run(s, steps[..k]) == s
    ensures Run(s, steps) == EndedBy(s, steps[k])
    decreases |steps|
  {
    if k == 0 {
      QuietOnceEnded(EndedBy(s, steps[0]), steps[1..]);
      assert steps[..0] == [];
    } else {
      assert !Ends(steps[0], s.generation);
      var rest := steps[1..];
      forall i | 0 <= i < k - 1 ensures !Ends(rest[i], s.generation) { assert rest[i] == steps[i + 1]; }
      FirstEndingWins(s, rest, k - 1);
      assert steps[..k][1..] == rest[..k - 1] && steps[..k][0] == steps[0];
    }
  }

  lemma {:induction false} QuietOnceEnded(s: State, steps: seq<Step>)
    requires s.status != Running && forall i :: 0 <= i < |steps| ==> !steps[i].Start?
    ensures Run(s, steps) == s
    decreases |steps|
  {
    if steps != [] {
      assert !steps[0].Start?;
      QuietOnceEnded(s, steps[1..]);
    }
  }

  // Without a step that ends it, it is still running.
  lemma {:induction false} RunsUntilEnded(s: State, steps: seq<Step>)
    requires s.status == Running && forall i :: 0 <= i < |steps| ==> !Ends(steps[i], s.generation)
    ensures Run(s, steps) == s
    decreases |steps|
  {
    if steps != [] {
      assert !Ends(steps[0], s.generation);
      RunsUntilEnded(s, steps[1..]);
    }
  }

  // A job that has been superseded is out of the race: its worker and its watchdog change nothing.
  lemma {:induction false} SupersededIsIgnored(s: State, steps: seq<Step>, late: Step)
    requires late.Conclude? || late.Wake?
    requires late.generation <= s.generation && (s.status == Running ==> late.generation < s.generation)
    ensures Next(Run(s, steps), late) == Run(s, steps)
    decreases |steps|
  {
    if steps != [] {
      SupersededIsIgnored(Next(s, steps[0]), steps[1..], late);
    }
  }

  // Jobs started and jobs ended over a run.
  function Starts(s: State, steps: seq<Step>): nat
    decreases |steps|
  {
    if steps == [] then 0
    else (if s.status != Running && steps[0].Start? then 1 else 0) + Starts(Next(s, steps[0]), steps[1..])
  }

  function Endings(s: State, steps: seq<Step>): nat
    decreases |steps|
  {
    if steps == [] then 0
    else
      (if s.status == Running && Next(s, steps[0]).status != Running then 1 else 0)
      + Endings(Next(s, steps[0]), steps[1..])
  }

  // What is shown is always of one kind: idle, running with no answer, or ended with one, its output
  // within the limit.
  predicate Shown(s: State) {
    && |s.output| <= OUTPUT_LIMIT
    && (s.status.Idle? || s.status.Running? ==> s.ok.None? && s.output == "")
    && (!s.status.Idle? && !s.status.Running? ==> s.ok == Some(s.status.Done?))
  }

  // At most one job runs at a time: of the jobs started all but the one running have ended, and
  // jobs are numbered as they start.
  lemma {:induction false} AtMostOneRuns(s: State, steps: seq<Step>)
    requires Shown(s)
    ensures var after := Run(s, steps);
            var now, before := if after.status.Running? then 1 else 0, if s.status.Running? then 1 else 0;
            && Shown(after)
            && Starts(s, steps) - Endings(s, steps) == now - before
            && after.generation == s.generation + Starts(s, steps)
    decreases |steps|
  {
    hide Next, Shown;
    if steps != [] {
      NextShows(s, steps[0]);
      AtMostOneRuns(Next(s, steps[0]), steps[1..]);
    }
  }

  lemma NextShows(s: State, step: Step)
    requires Shown(s)
    ensures Shown(Next(s, step))
    ensures var starts := s.status != Running && step.Start?; var next := Next(s, step);
            && next.generation == s.generation + (if starts then 1 else 0)
            && (starts ==> next.status.Running?)
            && (!starts && s.status != Running ==> next.status == s.status)
  {
    hide Kept;
    KeptIsTheEnd(if step.Conclude? then step.output else "");
    KeptIsTheEnd("");
    KeptIsTheEnd("timed out");
  }

  lemma KeptIsTheEnd(text: string)
    ensures |Kept(text)| == if |text| <= 20_000 then |text| else 20_000
    ensures text == text[..|text| - |Kept(text)|] + Kept(text)
  {
  }
}
