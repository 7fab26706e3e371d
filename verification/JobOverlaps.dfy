/**
  What runs of one job that overlap each other, and Stops, do to each other, over every behaviour:
  when every final process can be stopped, when a Stop is remembered, and when the page lets another
  run begin. The conditions are on the steps taken.
*/
module JobOverlaps {
  import opened Wrappers
  import opened Jobs
  import opened JobLifecycle

  // ---------------------------------------------------------------- whose process a Stop kills

  // A Stop now would kill the final process of every run that has one up.
  predicate AllStoppable(s: Sys) {
    forall run <- s.runs :: FinalIsUp(run.pc) ==> StopSection(s.job).1 == TakeCmd(run.pc.final)
  }

  predicate DistinctFinals(runs: seq<Run>) {
    forall r, q | 0 <= r < q < |runs| :: HasFinal(runs[r].pc) && HasFinal(runs[q].pc) ==>
      runs[r].pc.final != runs[q].pc.final
  }

  predicate OtherIsUp(runs: seq<Run>, r: nat) {
    exists q | 0 <= q < |runs| :: q != r && FinalIsUp(runs[q].pc)
  }

  // This step publishes a final process while that of another run is up.
  predicate PublishesOver(s: Sys, step: Step) {
    step.PublishFinal? && OtherIsUp(s.runs, step.r)
  }

  predicate PublishesAlone(s: Sys, steps: seq<Step>)
    requires Valid(s, steps)
    decreases |steps|
  {
    steps == [] || (!PublishesOver(s, steps[0]) && PublishesAlone(Apply(s, steps[0]), steps[1..]))
  }

  predicate AlwaysStoppable(s: Sys, steps: seq<Step>)
    requires Valid(s, steps)
    decreases |steps|
  {
    AllStoppable(s) && (steps == [] || AlwaysStoppable(Apply(s, steps[0]), steps[1..]))
  }

  lemma FinalsStayDistinct(s: Sys, step: Step)
    requires DistinctFinals(s.runs) && Enabled(s, step)
    ensures DistinctFinals(Apply(s, step).runs)
  {
    if OfRun(step) {
      RunKeepsDistinct(s, step);
    }
  }

  lemma RunKeepsDistinct(s: Sys, step: Step)
    requires DistinctFinals(s.runs) && Enabled(s, step) && OfRun(step)
    ensures DistinctFinals(Apply(s, step).runs)
  {
    assert step.StartFinal? ==> Unused(s.runs, step.final);
    hide Enabled, Apply;
    OneRunMoves(s, step);
    assert forall r | 0 <= r < |s.runs| :: s.runs[r] in s.runs;
  }

  lemma StopTakesCmd(j: JobState, c: Cmd)
    ensures StopSection(j).1 == TakeCmd(c) <==> j.cmd == Some(c)
  {
  }

  // By number, and by what is in `cmd`.
  predicate UpInCmd(s: Sys) {
    forall r | 0 <= r < |s.runs| :: FinalIsUp(s.runs[r].pc) ==> s.job.cmd == Some(s.runs[r].pc.final)
  }

  lemma StoppableIsInCmd(s: Sys)
    ensures AllStoppable(s) <==> UpInCmd(s)
  {
    hide StopSection;
    assert forall r | 0 <= r < |s.runs| :: s.runs[r] in s.runs;
    forall run | run in s.runs && FinalIsUp(run.pc)
      ensures StopSection(s.job).1 == TakeCmd(run.pc.final) <==> s.job.cmd == Some(run.pc.final)
    {
      StopTakesCmd(s.job, run.pc.final);
    }
  }

  lemma RunStepInCmd(s: Sys, step: Step)
    requires UpInCmd(s) && DistinctFinals(s.runs) && Enabled(s, step) && OfRun(step)
    ensures UpInCmd(Apply(s, step)) <==> !PublishesOver(s, step)
  {
    hide Enabled, Apply;
    var after := Apply(s, step);
    OneRunMoves(s, step);
    if PublishesOver(s, step) {
      var q :| 0 <= q < |s.runs| && q != step.r && FinalIsUp(s.runs[q].pc);
      assert after.runs[q] == s.runs[q];
    }
  }

  lemma OtherStepInCmd(s: Sys, step: Step)
    requires UpInCmd(s) && Enabled(s, step) && !OfRun(step)
    ensures UpInCmd(Apply(s, step))
  {
  }

  lemma StoppableStep(s: Sys, step: Step)
    requires AllStoppable(s) && DistinctFinals(s.runs) && Enabled(s, step)
    ensures AllStoppable(Apply(s, step)) <==> !PublishesOver(s, step)
  {
    hide Enabled, Apply, AllStoppable, UpInCmd, DistinctFinals, OtherIsUp;
    StoppableIsInCmd(s);
    StoppableIsInCmd(Apply(s, step));
    if OfRun(step) {
      RunStepInCmd(s, step);
    } else {
      OtherStepInCmd(s, step);
    }
  }

  lemma {:induction false} StoppableWhileAlone(s: Sys, steps: seq<Step>)
    requires AllStoppable(s) && DistinctFinals(s.runs) && Valid(s, steps)
    ensures AlwaysStoppable(s, steps) <==> PublishesAlone(s, steps)
    decreases |steps|
  {
    hide AllStoppable, DistinctFinals, Enabled, Apply, PublishesOver;
    if steps == [] {
    } else {
      FinalsStayDistinct(s, steps[0]);
      StoppableStep(s, steps[0]);
      if !PublishesOver(s, steps[0]) {
        StoppableWhileAlone(Apply(s, steps[0]), steps[1..]);
      }
    }
  }

  /**
    Over every behaviour: in every state a Stop kills the final process of whichever run has one up,
    if and only if none was published while that of another run was up.
  */
  lemma AlwaysStoppableIff(steps: seq<Step>)
    requires Valid(Init, steps)
    ensures AlwaysStoppable(Init, steps) <==> PublishesAlone(Init, steps)
  {
    StoppableWhileAlone(Init, steps);
  }

  // ---------------------------------------------------------------- whether a Stop is remembered

  // Step number `i` is the critical section of a Stop, and it finds something to stop.
  predicate StopsAt(s: Sys, steps: seq<Step>, i: nat) {
    && i < |steps| && steps[i].StopLocks?
    && Valid(s, steps[..i]) && TakesEffect(Exec(s, steps[..i]).job)
  }

  // A Stop took effect, and no run was begun since.
  predicate StoppedLast(s: Sys, steps: seq<Step>) {
    exists i | 0 <= i < |steps| :: StopsAt(s, steps, i) && NoBegin(steps[i + 1..])
  }

  lemma StoppingStep(s: Sys, step: Step)
    requires Enabled(s, step)
    ensures Apply(s, step).job.stopping <==>
      !step.Begin? && (s.job.stopping || (step.StopLocks? && TakesEffect(s.job)))
  {
  }

  lemma StopsEarlier(s: Sys, steps: seq<Step>, i: nat)
    requires i + 1 < |steps|
    ensures var front := steps[..|steps| - 1];
      && (StopsAt(s, steps, i) <==> StopsAt(s, front, i))
      && (NoBegin(steps[i + 1..]) <==> NoBegin(front[i + 1..]) && !steps[|steps| - 1].Begin?)
  {
    hide Valid, Exec;
    var front, last := steps[..|steps| - 1], steps[|steps| - 1];
    assert front[..i] == steps[..i];
    assert steps[i + 1..] == front[i + 1..] + [last];
  }

  lemma StoppedLastStep(s: Sys, steps: seq<Step>)
    requires Valid(s, steps) && steps != []
    ensures var front, last := steps[..|steps| - 1], steps[|steps| - 1];
      && Valid(s, front)
      && (StoppedLast(s, steps) <==>
            !last.Begin? && (StoppedLast(s, front) || (last.StopLocks? && TakesEffect(Exec(s, front).job))))
  {
    hide Valid, Exec, TakesEffect, StopsAt, NoBegin;
    var n := |steps| - 1;
    var front, last := steps[..n], steps[n];
    LastStep(s, steps);
    assert StopsAt(s, steps, n) <==> last.StopLocks? && TakesEffect(Exec(s, front).job) by { StopsNow(s, steps); }
    assert NoBegin(steps[n + 1..]) by { NoneLeft(steps); }
    if StoppedLast(s, steps) {
      var i :| 0 <= i < |steps| && StopsAt(s, steps, i) && NoBegin(steps[i + 1..]);
      if i < n {
        StopsEarlier(s, steps, i);
      } else {
        assert !last.Begin? by { StopsNow(s, steps); }
      }
    }
    if StoppedLast(s, front) {
      var i :| 0 <= i < |front| && StopsAt(s, front, i) && NoBegin(front[i + 1..]);
      StopsEarlier(s, steps, i);
    }
  }

  lemma StopsNow(s: Sys, steps: seq<Step>)
    requires Valid(s, steps) && steps != [] && Valid(s, steps[..|steps| - 1])
    ensures var n := |steps| - 1;
      && (StopsAt(s, steps, n) <==> steps[n].StopLocks? && TakesEffect(Exec(s, steps[..n]).job))
      && (StopsAt(s, steps, n) ==> !steps[n].Begin?)
  {
    hide Valid, Exec, TakesEffect;
  }

  lemma NoneLeft(steps: seq<Step>)
    ensures NoBegin(steps[|steps|..])
  {
  }

  /**
    Over every behaviour, from any state: a Stop is remembered if and only if one took effect after
    the last run was begun, or one was remembered before and no run was begun.
  */
  lemma {:induction false} StopRememberedIff(s: Sys, steps: seq<Step>)
    requires Valid(s, steps)
    ensures Exec(s, steps).job.stopping <==> StoppedLast(s, steps) || (s.job.stopping && NoBegin(steps))
    decreases |steps|
  {
    hide Enabled, Apply, StoppedLast, TakesEffect;
    if steps == [] {
      assert !StoppedLast(s, steps) by { NoStopYet(s); }
    } else {
      var front, last := steps[..|steps| - 1], steps[|steps| - 1];
      LastStep(s, steps);
      StopRememberedIff(s, front);
      StoppingStep(Exec(s, front), last);
      StoppedLastStep(s, steps);
      assert steps == front + [last];
    }
  }

  lemma NoStopYet(s: Sys)
    ensures !StoppedLast(s, [])
  {
  }

  /**
    The verdict on a run, recorded when its final process has ended, however it overlapped with
    others: Stopped if and only if a Stop took effect after the last run was begun, be it this run or
    another one, and otherwise what the exit says. A run that fails before that is recorded as Error.
  */
  lemma VerdictIff(steps: seq<Step>, r: nat)
    requires Valid(Init, steps) && r < |Exec(Init, steps).runs|
    ensures var e := Exec(Init, steps);
      && (e.runs[r].pc.Exited? ==>
            && Enabled(e, Finish(r))
            && var status := Apply(e, Finish(r)).job.status;
               status == if StoppedLast(Init, steps) then Stopped else if e.runs[r].pc.exit.Some? then Error else Done)
      && (e.runs[r].pc.Failing? ==> Enabled(e, RecordFailure(r)) && Apply(e, RecordFailure(r)).job.status == Error)
  {
    hide Valid, Exec, StoppedLast;
    StopRememberedIff(Init, steps);
  }

  /**
    For one Stop that takes effect, and the verdict on a run after it: while no other Stop takes
    effect, the verdict is Stopped if and only if no run was begun after the Stop.
  */
  lemma StopForgottenIff(s: Sys, k: nat, steps: seq<Step>, r: nat)
    requires Enabled(s, StopLocks(k)) && TakesEffect(s.job)
    requires Valid(Apply(s, StopLocks(k)), steps)
    requires forall i | 0 <= i < |steps| :: !StopsAt(Apply(s, StopLocks(k)), steps, i)
    requires Enabled(Exec(Apply(s, StopLocks(k)), steps), Finish(r))
    ensures var e := Exec(Apply(s, StopLocks(k)), steps);
      Apply(e, Finish(r)).job.status == Stopped <==> NoBegin(steps)
  {
    hide Valid, Exec, StopsAt;
    StopRememberedIff(Apply(s, StopLocks(k)), steps);
  }

  // ---------------------------------------------------------------- what the page lets through

  // The page disables Run while the status is one of these.
  predicate PageAllowsRun(j: JobState) {
    j.status != Cloning && j.status != Building && j.status != Running
  }

  predicate PageGated(s: Sys, steps: seq<Step>)
    requires Valid(s, steps)
    decreases |steps|
  {
    steps == [] ||
    ((steps[0].Begin? ==> PageAllowsRun(s.job)) && PageGated(Apply(s, steps[0]), steps[1..]))
  }

  predicate Busy(status: Status) {
    status == Cloning || status == Building || status == Running
  }

  // This step makes the job look busy.
  predicate Occupies(step: Step) {
    step.MarkBuilding? || step.PublishFinal? || (step.OtherSets? && Busy(step.status))
  }

  // Taken in this state, the step makes the job look free.
  predicate Frees(j: JobState, step: Step) {
    || step.Finish? || step.RecordFailure? || (step.StopLocks? && TakesEffect(j))
    || step.TomcatStopped? || step.TomcatStopFails? || (step.OtherSets? && !Busy(step.status))
  }

  predicate FreesAt(s: Sys, steps: seq<Step>, i: nat) {
    i < |steps| && Valid(s, steps[..i]) && Frees(Exec(s, steps[..i]).job, steps[i])
  }

  predicate NoneFrees(s: Sys, steps: seq<Step>, from: nat) {
    forall i | from <= i < |steps| :: !FreesAt(s, steps, i)
  }

  // The job was made to look busy, and nothing freed it since.
  predicate OccupiedLast(s: Sys, steps: seq<Step>) {
    exists i | 0 <= i < |steps| :: Occupies(steps[i]) && NoneFrees(s, steps, i + 1)
  }

  lemma GateStep(s: Sys, step: Step)
    requires Enabled(s, step)
    ensures PageAllowsRun(Apply(s, step).job) <==>
      if Occupies(step) then false else PageAllowsRun(s.job) || Frees(s.job, step)
  {
  }

  lemma FreesEarlier(s: Sys, steps: seq<Step>, from: nat)
    requires Valid(s, steps) && steps != [] && from < |steps|
    ensures var front, last := steps[..|steps| - 1], steps[|steps| - 1];
      && Valid(s, front)
      && (NoneFrees(s, steps, from) <==> NoneFrees(s, front, from) && !Frees(Exec(s, front).job, last))
  {
    hide Valid, Exec, Frees;
    var n := |steps| - 1;
    var front := steps[..n];
    LastStep(s, steps);
    forall i | 0 <= i < n ensures FreesAt(s, steps, i) <==> FreesAt(s, front, i) {
      assert front[..i] == steps[..i];
    }
    assert FreesAt(s, steps, n) <==> Frees(Exec(s, front).job, steps[n]);
  }

  lemma NoneAfterLast(s: Sys, steps: seq<Step>)
    ensures NoneFrees(s, steps, |steps|)
  {
  }

  lemma OccupiedStep(s: Sys, steps: seq<Step>)
    requires Valid(s, steps) && steps != []
    ensures var front, last := steps[..|steps| - 1], steps[|steps| - 1];
      && Valid(s, front)
      && (OccupiedLast(s, steps) <==>
            Occupies(last) || (OccupiedLast(s, front) && !Frees(Exec(s, front).job, last)))
  {
    hide Valid, Exec, Frees, NoneFrees, Occupies;
    var n := |steps| - 1;
    var front, last := steps[..n], steps[n];
    LastStep(s, steps);
    NoneAfterLast(s, steps);
    if OccupiedLast(s, steps) {
      var i :| 0 <= i < |steps| && Occupies(steps[i]) && NoneFrees(s, steps, i + 1);
      if i < n {
        FreesEarlier(s, steps, i + 1);
        assert front[i] == steps[i];
      }
    }
    if OccupiedLast(s, front) && !Frees(Exec(s, front).job, last) {
      var i :| 0 <= i < |front| && Occupies(front[i]) && NoneFrees(s, front, i + 1);
      FreesEarlier(s, steps, i + 1);
      assert front[i] == steps[i];
    }
  }

  lemma NothingOccupies(s: Sys)
    ensures !OccupiedLast(s, []) && NoneFrees(s, [], 0)
  {
  }

  /**
    Over every behaviour, from any state: the page lets a run begin, whatever runs are under way, if
    and only if the job was last made to look free. It is made to look busy by a run that enters its
    chain or publishes its final process, and free by the end of any run, by a failure, and by a
    Stop that takes effect, at once.
  */
  lemma {:induction false} PageAllowsRunIff(s: Sys, steps: seq<Step>)
    requires Valid(s, steps)
    ensures PageAllowsRun(Exec(s, steps).job) <==>
      !OccupiedLast(s, steps) && (PageAllowsRun(s.job) || !NoneFrees(s, steps, 0))
    decreases |steps|
  {
    hide Enabled, Apply, OccupiedLast, NoneFrees, Frees, Occupies, PageAllowsRun;
    if steps == [] {
      NothingOccupies(s);
    } else {
      var front, last := steps[..|steps| - 1], steps[|steps| - 1];
      LastStep(s, steps);
      PageAllowsRunIff(s, front);
      GateStep(Exec(s, front), last);
      OccupiedStep(s, steps);
      FreesEarlier(s, steps, 0);
    }
  }

  // What the status is, by where the only run that is not over is.
  predicate StatusByPlace(s: Sys) {
    s.runs != [] ==>
      match LatestPc(s)
      case Beginning => PageAllowsRun(s.job)
      case AtChain(_) | ServiceStarted(_, _) | FinalStarted(_) | Failing(_) => s.job.status in {Building, Stopped}
      case Waiting(_) | Exited(_, _) => s.job.status in {Running, Stopped}
      case Reaping(_) | Over(_) => PageAllowsRun(s.job)
  }

  lemma StatusRunStep(s: Sys, step: Step)
    requires Control(s) && Enabled(s, step) && OfRun(step) && !s.foreign && StatusByPlace(s)
    ensures StatusByPlace(Apply(s, step))
  {
    hide Enabled, Apply;
    OneRunMoves(s, step);
    assert step.r == |s.runs| - 1;
  }

  lemma StatusOtherStep(s: Sys, step: Step)
    requires Control(s) && Enabled(s, step) && !OfRun(step) && !Apply(s, step).foreign && StatusByPlace(s)
    requires step.Begin? ==> PageAllowsRun(s.job)
    ensures StatusByPlace(Apply(s, step))
  {
    if OfStopper(step) {
      assert s.stoppers[step.k] in s.stoppers;
    }
  }

  lemma StatusStep(s: Sys, step: Step)
    requires Control(s) && Enabled(s, step) && !Apply(s, step).foreign && StatusByPlace(s)
    requires step.Begin? ==> PageAllowsRun(s.job)
    ensures StatusByPlace(Apply(s, step))
  {
    hide Control, StatusByPlace;
    if OfRun(step) {
      StatusRunStep(s, step);
    } else {
      StatusOtherStep(s, step);
    }
  }

  lemma {:induction false} ForeignStays(s: Sys, steps: seq<Step>)
    requires Valid(s, steps) && s.foreign
    ensures Exec(s, steps).foreign
    decreases |steps|
  {
    if steps == [] {
    } else {
      ForeignStays(Apply(s, steps[0]), steps[1..]);
    }
  }

  lemma {:induction false} StatusAlways(s: Sys, steps: seq<Step>)
    requires Control(s) && StatusByPlace(s)
    requires Valid(s, steps) && OneAtATime(s, steps) && PageGated(s, steps) && !Exec(s, steps).foreign
    ensures StatusByPlace(Exec(s, steps))
    decreases |steps|
  {
    hide Control, StatusByPlace, Enabled, Apply, PageAllowsRun;
    if steps == [] {
    } else {
      var next := Apply(s, steps[0]);
      if next.foreign {
        ForeignStays(next, steps[1..]);
      }
      StatusStep(s, steps[0]);
      ControlStep(s, steps[0]);
      StatusAlways(next, steps[1..]);
    }
  }

  /**
    How far the page's gate keeps runs apart, for runs and Stops behind it, up to the first overlap:
    while a run is under way the gate is open exactly where it has not begun to build yet, where it
    is killing what it found at its end, and wherever a Stop has made the job Stopped.
  */
  lemma GateOpenIff(steps: seq<Step>)
    requires Valid(Init, steps) && OneAtATime(Init, steps) && PageGated(Init, steps)
    ensures var e := Exec(Init, steps);
      !e.foreign && e.runs != [] && !LatestPc(e).Over? ==>
        (PageAllowsRun(e.job) <==> LatestPc(e).Beginning? || LatestPc(e).Reaping? || e.job.status == Stopped)
  {
    hide Valid, Exec;
    InitHolds();
    if !Exec(Init, steps).foreign {
      StatusAlways(Init, steps);
    }
  }
}
