/**
  Behaviours in which something the launcher promises does not happen, step by step. The page lets
  through every one of them.
*/
module JobBehaviours {
  import opened Wrappers
  import opened Jobs
  import opened JobLifecycle
  import opened JobOverlaps

  lemma GatedStep(s: Sys, step: Step)
    requires Enabled(s, step)
    ensures Valid(s, [step]) && Exec(s, [step]) == Apply(s, step)
    ensures PageGated(s, [step]) <==> (step.Begin? ==> PageAllowsRun(s.job))
  {
    hide Enabled, Apply;
    OneStep(s, step);
    assert [step][1..] == [];
  }

  lemma {:induction false} GatedConcat(s: Sys, first: seq<Step>, second: seq<Step>)
    requires Valid(s, first) && Valid(Exec(s, first), second)
    requires PageGated(s, first) && PageGated(Exec(s, first), second)
    ensures Valid(s, first + second) && PageGated(s, first + second)
    decreases |first|
  {
    hide Enabled, Apply;
    ExecConcat(s, first, second);
    if first == [] {
      assert first + second == second;
    } else {
      assert (first + second)[1..] == first[1..] + second;
      GatedConcat(Apply(s, first[0]), first[1..], second);
    }
  }

  // A behaviour the page lets through, one step longer.
  lemma Then(steps: seq<Step>, step: Step) returns (longer: seq<Step>, e: Sys)
    requires Valid(Init, steps) && PageGated(Init, steps) && Enabled(Exec(Init, steps), step)
    requires step.Begin? ==> PageAllowsRun(Exec(Init, steps).job)
    ensures Valid(Init, longer) && PageGated(Init, longer)
    ensures e == Exec(Init, longer) == Apply(Exec(Init, steps), step)
  {
    hide Enabled, Apply;
    e := Apply(Exec(Init, steps), step);
    longer := steps + [step];
    Extend(steps, step);
    GatedStep(Exec(Init, steps), step);
    GatedConcat(Init, steps, [step]);
  }

  lemma NothingYet()
    ensures Valid(Init, []) && Exec(Init, []) == Init && PageGated(Init, [])
  {
  }

  // A run has entered its chain.
  lemma InChain(chain: seq<ChainCmd>) returns (steps: seq<Step>, e: Sys)
    ensures Valid(Init, steps) && PageGated(Init, steps) && e == Exec(Init, steps)
    ensures e == Init.(job := SetStatus(BeginRun(NewJob, 80), Building, ""), runs := [Run(chain, AtChain(0))])
  {
    hide Valid, Exec, PageGated;
    NothingYet();
    steps, e := Then([], Begin(80, chain));
    steps, e := Then(steps, MarkBuilding(0));
  }

  // A run whose one service is up and published.
  lemma ServiceUp(chain: seq<ChainCmd>) returns (steps: seq<Step>, e: Sys)
    requires chain != [] && chain[0] == Service
    ensures Valid(Init, steps) && PageGated(Init, steps) && e == Exec(Init, steps)
    ensures e == Init.(job := PublishDep(SetStatus(BeginRun(NewJob, 80), Building, ""), 7),
                       runs := [Run(chain, AtChain(1))], started := [7])
  {
    hide Valid, Exec, PageGated;
    steps, e := InChain(chain);
    steps, e := Then(steps, StartService(0, 7));
    steps, e := Then(steps, Publish(0));
  }

  // A Stop arrives and takes what it finds.
  lemma StopArrives(before: seq<Step>) returns (steps: seq<Step>, e: Sys)
    requires Valid(Init, before) && PageGated(Init, before)
    ensures Valid(Init, steps) && PageGated(Init, steps) && e == Exec(Init, steps)
    ensures var s := Exec(Init, before);
      var section := StopSection(s.job);
      e == s.(job := section.0, stoppers := s.stoppers + [AfterSection(section.1)],
              lateStop := s.lateStop || (Aborted(s) && section.1.TakeDeps?))
  {
    hide Valid, Exec, PageGated;
    ghost var s := Exec(Init, before);
    steps, e := Then(before, StopCalled);
    steps, e := Then(steps, StopLocks(|s.stoppers|));
    var stopper := AfterSection(StopSection(s.job).1);
    assert (s.stoppers + [AtSection])[|s.stoppers| := stopper] == s.stoppers + [stopper];
  }

  // The only run there is fails in the task it is at.
  lemma TaskFailed(before: seq<Step>) returns (steps: seq<Step>, e: Sys)
    requires Valid(Init, before) && PageGated(Init, before)
    requires Exec(Init, before).runs == [Run([Service, Task], AtChain(1))]
    ensures Valid(Init, steps) && PageGated(Init, steps) && e == Exec(Init, steps)
    ensures var s := Exec(Init, before);
      e == s.(job := SetStatus(s.job, Error, "exit 1"), runs := [Run([Service, Task], Over(false))])
  {
    hide Valid, Exec, PageGated;
    steps, e := Then(before, TaskFails(0, "exit 1"));
    steps, e := Then(steps, RecordFailure(0));
  }

  // The service is up when the next command of the chain fails, with or without a Stop before that.
  lemma FailedChain(stopFirst: bool) returns (steps: seq<Step>, e: Sys)
    ensures Valid(Init, steps) && PageGated(Init, steps) && e == Exec(Init, steps)
    ensures |e.runs| == 1 && e.runs[0].pc == Over(false) && !e.foreign && e.job.status == Error && e.abandoned == []
    ensures e.job.stopping == stopFirst && e.job.depCmds == (if stopFirst then [] else [7])
  {
    hide Valid, Exec, PageGated;
    steps, e := ServiceUp([Service, Task]);
    if stopFirst {
      steps, e := StopArrives(steps);
    }
    steps, e := TaskFailed(steps);
  }

  predicate OrphansAfterFailure(steps: seq<Step>) {
    Valid(Init, steps) && Exec(Init, steps).abandoned != []
    && |Exec(Init, steps).runs| == 2 && Exec(Init, steps).runs[0].pc == Over(false)
  }

  /** Running again after a failed chain, without a Stop in between, orphans the survivor. */
  lemma BeginningOverOrphans()
    ensures exists steps :: OrphansAfterFailure(steps) && PageGated(Init, steps)
  {
    hide Valid, Exec, PageGated;
    var steps, e := FailedChain(false);
    steps, e := Then(steps, Begin(80, []));
    assert e.abandoned == [7];
    assert OrphansAfterFailure(steps);
  }

  predicate Overridden(steps: seq<Step>) {
    && Valid(Init, steps)
    && var e := Exec(Init, steps);
       Aborted(e) && e.job.stopping && e.job.status == Error && !e.foreign
  }

  /** "Stopped, never Error" fails for a run that is stopped and then fails in its chain. */
  lemma AbortOverridesStop()
    ensures exists steps :: Overridden(steps) && PageGated(Init, steps)
  {
    hide Valid, Exec, PageGated;
    var steps, e := FailedChain(true);
    assert Overridden(steps);
  }

  // The final process is up behind its service.
  lemma FinalUp(final: Cmd) returns (steps: seq<Step>, e: Sys)
    ensures Valid(Init, steps) && PageGated(Init, steps) && e == Exec(Init, steps)
    ensures e.runs == [Run([Service], Waiting(final))] && e.job.cmd == Some(final)
    ensures e == Init.(job := e.job, runs := e.runs, started := [7])
    ensures e.job == PublishCmd(PublishDep(SetStatus(BeginRun(NewJob, 80), Building, ""), 7), final)
  {
    hide Valid, Exec, PageGated;
    steps, e := ServiceUp([Service]);
    steps, e := FinalPublished(steps, 0, final);
  }

  /**
    The page's gate is not enough for one run at a time: a Stop sets the status at once, while the
    run it stopped still waits for its final process and its services are still in `depCmds`.
  */
  lemma StoppedButWaiting(final: Cmd) returns (steps: seq<Step>, e: Sys)
    ensures Valid(Init, steps) && PageGated(Init, steps) && e == Exec(Init, steps)
    ensures e.runs == [Run([Service], Waiting(final))] && !e.foreign
    ensures e.job.status == Stopped && PageAllowsRun(e.job) && e.job.depCmds == [7]
    ensures e.started == [7] && e.killed == [] && e.abandoned == [] && e.stoppers == [KillingCmd(final)]
  {
    hide Valid, Exec, PageGated;
    steps, e := FinalUp(final);
    steps, e := StopArrives(steps);
  }

  /** The two further places where the gate is open: a run that has just begun. */
  lemma JustBegun() returns (steps: seq<Step>, e: Sys)
    ensures Valid(Init, steps) && PageGated(Init, steps) && e == Exec(Init, steps)
    ensures e.runs == [Run([Service], Beginning)] && PageAllowsRun(e.job) && !e.foreign
  {
    hide Valid, Exec, PageGated;
    NothingYet();
    steps, e := Then([], Begin(80, [Service]));
  }

  /** And a run whose process has ended, while it kills what it found. */
  lemma EndedButReaping() returns (steps: seq<Step>, e: Sys)
    ensures Valid(Init, steps) && PageGated(Init, steps) && e == Exec(Init, steps)
    ensures e.runs == [Run([Service], Reaping([7]))] && PageAllowsRun(e.job) && !e.foreign
  {
    hide Valid, Exec, PageGated;
    steps, e := FinalUp(8);
    assert e.job.depCmds == [7];
    steps, e := Then(steps, FinalExits(0, None));
    assert e.runs == [Run([Service], Exited(8, None))];
    steps, e := Then(steps, Finish(0));
  }

  // A run at its final process starts it and publishes it.
  lemma FinalPublished(before: seq<Step>, r: nat, final: Cmd) returns (steps: seq<Step>, e: Sys)
    requires Valid(Init, before) && PageGated(Init, before)
    requires var s := Exec(Init, before); r < |s.runs| && AtFinal(s.runs[r]) && Unused(s.runs, final)
    ensures Valid(Init, steps) && PageGated(Init, steps) && e == Exec(Init, steps)
    ensures var s := Exec(Init, before);
      e == s.(job := PublishCmd(s.job, final), runs := s.runs[r := Run(s.runs[r].chain, Waiting(final))])
  {
    hide Valid, Exec, PageGated, Unused;
    ghost var s := Exec(Init, before);
    steps, e := Then(before, StartFinal(r, final));
    steps, e := Then(steps, PublishFinal(r));
    assert e.runs == s.runs[r := Run(s.runs[r].chain, Waiting(final))];
  }

  // Another run of a bare final process is begun, and gets as far as waiting for it.
  lemma BegunOver(before: seq<Step>) returns (steps: seq<Step>, e: Sys)
    requires Valid(Init, before) && PageGated(Init, before)
    requires var s := Exec(Init, before); |s.runs| == 1 && PageAllowsRun(s.job) && Unused(s.runs, 9)
    ensures Valid(Init, steps) && PageGated(Init, steps) && e == Exec(Init, steps)
    ensures var s := Exec(Init, before);
      e == s.(job := PublishCmd(SetStatus(BeginRun(s.job, 80), Building, ""), 9),
              runs := s.runs + [Run([], Waiting(9))], abandoned := s.abandoned + s.job.depCmds, lateStop := false)
  {
    hide Valid, Exec, PageGated;
    ghost var s := Exec(Init, before);
    steps, e := Then(before, Begin(80, []));
    steps, e := Then(steps, MarkBuilding(1));
    assert e.runs == s.runs + [Run([], AtChain(0))];
    steps, e := FinalPublished(steps, 1, 9);
  }

  // A stopped run's service is orphaned, its result is recorded as Error, and the process of the
  // run begun over it can no longer be stopped.
  predicate Overrun(steps: seq<Step>) {
    && Valid(Init, steps)
    && var e := Exec(Init, steps);
       && |e.runs| == 2 && e.runs[0].pc == Reaping([]) && e.runs[1].pc.Waiting?
       && e.abandoned == [7] && e.job.status == Error && e.job.cmd.None? && !TakesEffect(e.job) && !e.foreign
  }

  /**
    Running again in that state drops the services of the stopped run and forgets that it was
    stopped; and when its process ends, the job loses hold of the new run's process.
  */
  lemma RerunOverStopped()
    ensures exists steps :: Overrun(steps) && PageGated(Init, steps)
  {
    hide Valid, Exec, PageGated;
    var steps, e := StoppedButWaiting(8);
    steps, e := BegunOver(steps);
    steps, e := Then(steps, FinalExits(0, Some("signal: killed")));
    steps, e := Then(steps, Finish(0));
    assert Overrun(steps);
  }
}
