/**
  What the record of a job says after any behaviour, read off the steps that were taken: each field
  is what the last step that writes it wrote. Nothing here mentions the critical sections themselves.
*/
module JobRecords {
  import opened Wrappers
  import opened Jobs
  import opened JobLifecycle

  // ---------------------------------------------------------------- what a run has seen

  // The last failure of run number `r` on its way.
  function FailureOf(steps: seq<Step>, r: nat): string {
    if steps == [] then ""
    else match steps[|steps| - 1]
      case TaskFails(q, msg) => if q == r then msg else FailureOf(steps[..|steps| - 1], r)
      case StartFinalFails(q, msg) => if q == r then msg else FailureOf(steps[..|steps| - 1], r)
      case _ => FailureOf(steps[..|steps| - 1], r)
  }

  function ExitOf(steps: seq<Step>, r: nat): Option<string> {
    if steps == [] then None
    else match steps[|steps| - 1]
      case FinalExits(q, exit) => if q == r then exit else ExitOf(steps[..|steps| - 1], r)
      case _ => ExitOf(steps[..|steps| - 1], r)
  }

  // The final process it has started last, and the service.
  function FinalOf(steps: seq<Step>, r: nat): Cmd {
    if steps == [] then 0
    else match steps[|steps| - 1]
      case StartFinal(q, final) => if q == r then final else FinalOf(steps[..|steps| - 1], r)
      case _ => FinalOf(steps[..|steps| - 1], r)
  }

  function DepOf(steps: seq<Step>, r: nat): Cmd {
    if steps == [] then 0
    else match steps[|steps| - 1]
      case StartService(q, dep) => if q == r then dep else DepOf(steps[..|steps| - 1], r)
      case _ => DepOf(steps[..|steps| - 1], r)
  }

  // What a run carries with it is what it has seen.
  predicate RunKnows(run: Run, steps: seq<Step>, r: nat) {
    match run.pc
    case ServiceStarted(_, dep) => dep == DepOf(steps, r)
    case FinalStarted(final) => final == FinalOf(steps, r)
    case Waiting(final) => final == FinalOf(steps, r)
    case Exited(final, exit) => final == FinalOf(steps, r) && exit == ExitOf(steps, r)
    case Failing(msg) => msg == FailureOf(steps, r)
    case _ => true
  }

  predicate RunsKnow(runs: seq<Run>, steps: seq<Step>) {
    forall r | 0 <= r < |runs| :: RunKnows(runs[r], steps, r)
  }

  lemma RunKnowsStep(s: Sys, front: seq<Step>, step: Step)
    requires Enabled(s, step) && RunsKnow(s.runs, front)
    ensures RunsKnow(Apply(s, step).runs, front + [step])
  {
    var steps := front + [step];
    assert steps[..|steps| - 1] == front;
    if OfRun(step) {
      RunKnowsOwnStep(s, front, step);
    }
  }

  lemma RunKnowsOwnStep(s: Sys, front: seq<Step>, step: Step)
    requires Enabled(s, step) && OfRun(step) && RunsKnow(s.runs, front)
    ensures RunsKnow(Apply(s, step).runs, front + [step])
  {
    hide Enabled, Apply;
    var steps := front + [step];
    assert steps[..|steps| - 1] == front;
    OneRunMoves(s, step);
  }

  lemma {:induction false} RunsKnowAlways(steps: seq<Step>)
    requires Valid(Init, steps)
    ensures RunsKnow(Exec(Init, steps).runs, steps)
    decreases |steps|
  {
    hide RunsKnow, Enabled, Apply;
    if steps == [] {
      assert RunsKnow(Init.runs, []) by { NoRunsYet(); }
    } else {
      var front, last := steps[..|steps| - 1], steps[|steps| - 1];
      LastStep(Init, steps);
      RunsKnowAlways(front);
      RunKnowsStep(Exec(Init, front), front, last);
      assert steps == front + [last];
    }
  }

  lemma NoRunsYet()
    ensures RunsKnow(Init.runs, [])
  {
  }

  // ---------------------------------------------------------------- what the job says

  function PortOf(steps: seq<Step>): int {
    if steps == [] then 0
    else match steps[|steps| - 1]
      case Begin(port, _) => port
      case RspSetup(port, _) => port
      case TomcatStopped(_) => 0
      case _ => PortOf(steps[..|steps| - 1])
  }

  function PathOf(steps: seq<Step>): string {
    if steps == [] then ""
    else match steps[|steps| - 1]
      case RspSetup(_, path) => path
      case TomcatStopped(_) => ""
      case _ => PathOf(steps[..|steps| - 1])
  }

  function ManagedOf(steps: seq<Step>): bool {
    if steps == [] then false
    else match steps[|steps| - 1]
      case RspSetup(_, _) => true
      case TomcatStopped(_) => false
      case _ => ManagedOf(steps[..|steps| - 1])
  }

  function CmdOf(steps: seq<Step>): Option<Cmd> {
    if steps == [] then None
    else match steps[|steps| - 1]
      case PublishFinal(r) => Some(FinalOf(steps[..|steps| - 1], r))
      case Finish(_) => None
      case _ => CmdOf(steps[..|steps| - 1])
  }

  // The services published and not taken, in the order in which they were started.
  function DepsOf(steps: seq<Step>): seq<Cmd> {
    if steps == [] then []
    else
      var front := steps[..|steps| - 1];
      match steps[|steps| - 1]
      case Begin(_, _) => []
      case Publish(r) => DepsOf(front) + [DepOf(front, r)]
      case Finish(_) => []
      case StopLocks(_) => if CmdOf(front).None? && !ManagedOf(front) then [] else DepsOf(front)
      case _ => DepsOf(front)
  }

  // A Stop now would find a process, or services of a job without one.
  predicate FindsSomething(steps: seq<Step>) {
    CmdOf(steps).Some? || (!ManagedOf(steps) && DepsOf(steps) != [])
  }

  function StoppingOf(steps: seq<Step>): bool {
    if steps == [] then false
    else
      var front := steps[..|steps| - 1];
      match steps[|steps| - 1]
      case Begin(_, _) => false
      case StopLocks(_) => StoppingOf(front) || FindsSomething(front)
      case _ => StoppingOf(front)
  }

  // The status and the message after one more step.
  function StatusAfter(was: Status, front: seq<Step>, step: Step): Status {
    match step
    case MarkBuilding(_) => Building
    case PublishFinal(_) => Running
    case Finish(r) => if StoppingOf(front) then Stopped else if ExitOf(front, r).Some? then Error else Done
    case RecordFailure(_) => Error
    case StopLocks(_) => if FindsSomething(front) then Stopped else was
    case TomcatStopped(_) => Stopped
    case TomcatStopFails(_, _) => Error
    case OtherSets(status, _) => status
    case _ => was
  }

  function ErrAfter(was: string, front: seq<Step>, step: Step): string {
    match step
    case MarkBuilding(_) => ""
    case Finish(r) => if !StoppingOf(front) && ExitOf(front, r).Some? then ExitOf(front, r).value else was
    case RecordFailure(r) => FailureOf(front, r)
    case TomcatStopFails(_, msg) => msg
    case OtherSets(_, err) => err
    case _ => was
  }

  function StatusOf(steps: seq<Step>): Status {
    if steps == [] then Idle
    else
      var front := steps[..|steps| - 1];
      StatusAfter(StatusOf(front), front, steps[|steps| - 1])
  }

  function ErrOf(steps: seq<Step>): string {
    if steps == [] then ""
    else
      var front := steps[..|steps| - 1];
      ErrAfter(ErrOf(front), front, steps[|steps| - 1])
  }

  lemma StateLonger(front: seq<Step>, step: Step)
    ensures var steps := front + [step];
      && StatusOf(steps) == StatusAfter(StatusOf(front), front, step)
      && ErrOf(steps) == ErrAfter(ErrOf(front), front, step)
      && (!step.Begin? && !step.StopLocks? ==> StoppingOf(steps) == StoppingOf(front))
      && (step.Begin? ==> !StoppingOf(steps))
      && (step.StopLocks? ==> StoppingOf(steps) == (StoppingOf(front) || FindsSomething(front)))
  {
    hide StatusAfter, ErrAfter, FindsSomething;
    assert (front + [step])[..|front|] == front;
  }

  predicate SaysProcesses(j: JobState, steps: seq<Step>) {
    j.cmd == CmdOf(steps) && j.depCmds == DepsOf(steps) && j.rspManaged == ManagedOf(steps)
  }

  predicate SaysState(j: JobState, steps: seq<Step>) {
    j.stopping == StoppingOf(steps) && j.status == StatusOf(steps) && j.err == ErrOf(steps)
  }

  predicate SaysPlace(j: JobState, steps: seq<Step>) {
    j.port == PortOf(steps) && j.openPath == PathOf(steps)
  }

  // One more step, read off the functions above.
  lemma ProcessesLonger(front: seq<Step>, step: Step)
    ensures var steps := front + [step];
      && CmdOf(steps) ==
           (if step.PublishFinal? then Some(FinalOf(front, step.r)) else if step.Finish? then None else CmdOf(front))
      && DepsOf(steps) ==
           (if step.Begin? || step.Finish? then []
            else if step.Publish? then DepsOf(front) + [DepOf(front, step.r)]
            else if step.StopLocks? && CmdOf(front).None? && !ManagedOf(front) then []
            else DepsOf(front))
      && ManagedOf(steps) == (if step.RspSetup? then true else if step.TomcatStopped? then false else ManagedOf(front))
  {
    hide FinalOf, DepOf;
    assert (front + [step])[..|front|] == front;
  }

  lemma ProcessesStep(s: Sys, front: seq<Step>, step: Step)
    requires Enabled(s, step) && RunsKnow(s.runs, front) && SaysProcesses(s.job, front)
    ensures SaysProcesses(Apply(s, step).job, front + [step])
  {
    hide CmdOf, DepsOf, ManagedOf, FinalOf, DepOf, ExitOf, FailureOf;
    ProcessesLonger(front, step);
    if OfRun(step) {
      assert RunKnows(s.runs[step.r], front, step.r);
    }
  }

  lemma StateStep(s: Sys, front: seq<Step>, step: Step)
    requires Enabled(s, step) && RunsKnow(s.runs, front) && SaysProcesses(s.job, front) && SaysState(s.job, front)
    ensures SaysState(Apply(s, step).job, front + [step])
  {
    hide StatusOf, ErrOf, StoppingOf, ExitOf, FailureOf, FinalOf, DepOf, CmdOf, DepsOf, ManagedOf;
    StateLonger(front, step);
    if OfRun(step) {
      assert RunKnows(s.runs[step.r], front, step.r);
    }
  }

  lemma PlaceLonger(front: seq<Step>, step: Step)
    ensures var steps := front + [step];
      && PortOf(steps) ==
           (if step.Begin? || step.RspSetup? then step.port else if step.TomcatStopped? then 0 else PortOf(front))
      && PathOf(steps) == (if step.RspSetup? then step.path else if step.TomcatStopped? then "" else PathOf(front))
  {
    assert (front + [step])[..|front|] == front;
  }

  lemma PlaceStep(s: Sys, front: seq<Step>, step: Step)
    requires Enabled(s, step) && SaysPlace(s.job, front)
    ensures SaysPlace(Apply(s, step).job, front + [step])
  {
    hide PortOf, PathOf;
    PlaceLonger(front, step);
  }

  /** Over every behaviour: every field of the job is what the steps taken say. */
  lemma {:induction false} RecordIs(steps: seq<Step>)
    requires Valid(Init, steps)
    ensures Exec(Init, steps).job ==
      JobState(StatusOf(steps), ErrOf(steps), StoppingOf(steps), CmdOf(steps), DepsOf(steps),
               PortOf(steps), PathOf(steps), ManagedOf(steps))
    decreases |steps|
  {
    hide Enabled, Apply, RunsKnow, StatusOf, ErrOf, StoppingOf, CmdOf, DepsOf, PortOf, PathOf, ManagedOf;
    if steps == [] {
      NothingSaid();
    } else {
      var front, last := steps[..|steps| - 1], steps[|steps| - 1];
      LastStep(Init, steps);
      RecordIs(front);
      RunsKnowAlways(front);
      var s := Exec(Init, front);
      ProcessesStep(s, front, last);
      StateStep(s, front, last);
      PlaceStep(s, front, last);
      assert steps == front + [last];
    }
  }

  lemma NothingSaid()
    ensures SaysProcesses(NewJob, []) && SaysState(NewJob, []) && SaysPlace(NewJob, [])
  {
  }

  // ---------------------------------------------------------------- the port, between two writes

  predicate WritesPort(step: Step) {
    step.Begin? || step.RspSetup? || step.TomcatStopped?
  }

  predicate PortLeftAlone(steps: seq<Step>) {
    forall step <- steps :: !WritesPort(step)
  }

  lemma {:induction false} PortStays(first: seq<Step>, more: seq<Step>)
    requires PortLeftAlone(more)
    ensures PortOf(first + more) == PortOf(first)
    decreases |more|
  {
    var all := first + more;
    if more == [] {
      assert all == first;
    } else {
      var front := more[..|more| - 1];
      assert more[|more| - 1] in more;
      assert all[..|all| - 1] == first + front;
      PortStays(first, front);
    }
  }

  // This port is the job's, and what State reports unless it is 0.
  ghost predicate ShowsPort(j: JobState, port: int) {
    j.port == port && forall targetPort :: PortShown(j, targetPort) == if port != 0 then port else targetPort
  }

  /** The port a run is begun with is the port that is shown until another step writes it. */
  lemma RunsPort(before: seq<Step>, port: int, chain: seq<ChainCmd>, after: seq<Step>)
    requires Valid(Init, before + [Begin(port, chain)] + after) && PortLeftAlone(after)
    ensures ShowsPort(Exec(Init, before + [Begin(port, chain)] + after).job, port)
  {
    hide Valid, Exec;
    var first := before + [Begin(port, chain)];
    PortStays(first, after);
    RecordIs(first + after);
  }
}
