/**
  The runs of one job and any number of concurrent Stop calls.

  Every critical section, process start and process kill is one step, so the windows the code leaves
  open are states of the model: a dependency service that has started but is not yet in `depCmds`
  (`ServiceStarted`), and a final process that has started but is not yet in `cmd` (`FinalStarted`).
  A behaviour is a sequence of steps, each enabled where it is taken. Runs may overlap: only the page
  keeps a second run from being begun, and it looks at nothing but the status.
*/
module JobLifecycle {
  import opened Wrappers
  import opened Jobs

  // A command before the last one: a detached service, or a task run to completion.
  datatype ChainCmd = Service | Task

  datatype RunPc =
    | Beginning
    | AtChain(next: nat)
    | ServiceStarted(next: nat, dep: Cmd)
    | FinalStarted(final: Cmd)
    | Waiting(final: Cmd)
    | Exited(final: Cmd, exit: Option<string>)
    | Reaping(deps: seq<Cmd>)
    | Failing(msg: string)
    | Over(completed: bool)  // whether it got as far as its final process

  datatype Run = Run(chain: seq<ChainCmd>, pc: RunPc)

  datatype Stopper =
    | AtSection
    | KillingCmd(cmd: Cmd)
    | KillingDeps(deps: seq<Cmd>)
    | StoppingTomcat
    | Returned

  datatype Sys = Sys(
    job: JobState,
    runs: seq<Run>,       // every run ever begun, in order
    stoppers: seq<Stopper>,
    started: seq<Cmd>,    // every dependency service ever started
    killed: seq<Cmd>,     // every killTree of a dependency, in order
    abandoned: seq<Cmd>,  // dependencies whose last reference a new run dropped
    lateStop: bool,       // a Stop took dependencies after the latest run had aborted
    foreign: bool)        // some action other than run and stop wrote this job

  const Init := Sys(NewJob, [], [], [], [], [], false, false)

  datatype Step =
    | Begin(port: int, chain: seq<ChainCmd>)
    | MarkBuilding(r: nat)
    | StartService(r: nat, dep: Cmd)
    | StartServiceFails(r: nat)
    | Publish(r: nat)
    | TaskDone(r: nat)
    | TaskFails(r: nat, msg: string)
    | StartFinal(r: nat, final: Cmd)
    | StartFinalFails(r: nat, msg: string)
    | PublishFinal(r: nat)
    | FinalExits(r: nat, exit: Option<string>)
    | Finish(r: nat)
    | ReapOne(r: nat)
    | ReapEnds(r: nat)
    | RecordFailure(r: nat)
    | StopCalled
    | StopLocks(k: nat)
    | StopKills(k: nat)
    | TomcatStopped(k: nat)
    | TomcatStopFails(k: nat, msg: string)
    | OtherSets(status: Status, err: string)
    | RspSetup(port: int, path: string)

  predicate OfStopper(step: Step) {
    step.StopLocks? || step.StopKills? || step.TomcatStopped? || step.TomcatStopFails?
  }

  predicate OfRun(step: Step) {
    !step.Begin? && !step.StopCalled? && !OfStopper(step) && !step.OtherSets? && !step.RspSetup?
  }

  predicate AtCmd(run: Run, cmd: ChainCmd) {
    run.pc.AtChain? && run.pc.next < |run.chain| && run.chain[run.pc.next] == cmd
  }

  predicate AtFinal(run: Run) {
    run.pc.AtChain? && run.pc.next >= |run.chain|
  }

  // The run is where this step of it is taken.
  predicate Ready(run: Run, step: Step)
    requires OfRun(step)
  {
    match step
    case MarkBuilding(_) => run.pc.Beginning?
    case StartService(_, _) => AtCmd(run, Service)
    case StartServiceFails(_) => AtCmd(run, Service)
    case Publish(_) => run.pc.ServiceStarted?
    case TaskDone(_) => AtCmd(run, Task)
    case TaskFails(_, _) => AtCmd(run, Task)
    case StartFinal(_, _) => AtFinal(run)
    case StartFinalFails(_, _) => AtFinal(run)
    case PublishFinal(_) => run.pc.FinalStarted?
    case FinalExits(_, _) => run.pc.Waiting?
    case Finish(_) => run.pc.Exited?
    case ReapOne(_) => run.pc.Reaping? && run.pc.deps != []
    case ReapEnds(_) => run.pc == Reaping([])
    case RecordFailure(_) => run.pc.Failing?
  }

  predicate HasFinal(pc: RunPc) {
    pc.FinalStarted? || pc.Waiting? || pc.Exited?
  }

  // No run has this final process: every process started is a new one.
  predicate Unused(runs: seq<Run>, final: Cmd) {
    forall run <- runs :: HasFinal(run.pc) ==> run.pc.final != final
  }

  predicate Enabled(s: Sys, step: Step) {
    if OfRun(step) then
      && step.r < |s.runs| && Ready(s.runs[step.r], step)
      && (step.StartService? ==> step.dep !in s.started)
      && (step.StartFinal? ==> Unused(s.runs, step.final))
    else match step
      case StopLocks(k) => k < |s.stoppers| && s.stoppers[k].AtSection?
      case StopKills(k) => k < |s.stoppers| && (s.stoppers[k].KillingCmd? || s.stoppers[k].KillingDeps?)
      case TomcatStopped(k) => k < |s.stoppers| && s.stoppers[k].StoppingTomcat?
      case TomcatStopFails(k, _) => k < |s.stoppers| && s.stoppers[k].StoppingTomcat?
      case _ => true
  }

  function NextPc(job: JobState, run: Run, step: Step): RunPc
    requires OfRun(step) && Ready(run, step)
  {
    match step
    case MarkBuilding(_) => AtChain(0)
    case StartService(_, dep) => ServiceStarted(run.pc.next, dep)
    case StartServiceFails(_) => AtChain(run.pc.next + 1)
    case Publish(_) => AtChain(run.pc.next + 1)
    case TaskDone(_) => AtChain(run.pc.next + 1)
    case TaskFails(_, msg) => Failing(msg)
    case StartFinal(_, final) => FinalStarted(final)
    case StartFinalFails(_, msg) => Failing(msg)
    case PublishFinal(_) => Waiting(run.pc.final)
    case FinalExits(_, exit) => Exited(run.pc.final, exit)
    case Finish(_) => Reaping(FinishRun(job, run.pc.exit).1)
    case ReapOne(_) => Reaping(run.pc.deps[1..])
    case ReapEnds(_) => Over(true)
    case RecordFailure(_) => Over(false)
  }

  // What a step of a run writes into the job.
  function RunWrites(job: JobState, run: Run, step: Step): JobState
    requires OfRun(step) && Ready(run, step)
  {
    match step
    case MarkBuilding(_) => SetStatus(job, Building, "")
    case Publish(_) => PublishDep(job, run.pc.dep)
    case PublishFinal(_) => PublishCmd(job, run.pc.final)
    case Finish(_) => FinishRun(job, run.pc.exit).0
    case RecordFailure(_) => SetStatus(job, Error, run.pc.msg)
    case _ => job
  }

  function Apply(s: Sys, step: Step): Sys
    requires Enabled(s, step)
  {
    if OfRun(step) then
      var run := s.runs[step.r];
      s.(job := RunWrites(s.job, run, step),
         runs := s.runs[step.r := run.(pc := NextPc(s.job, run, step))],
         started := if step.StartService? then s.started + [step.dep] else s.started,
         killed := if step.ReapOne? then s.killed + [run.pc.deps[0]] else s.killed)
    else match step
      case Begin(port, chain) =>
        s.(job := BeginRun(s.job, port), runs := s.runs + [Run(chain, Beginning)],
           abandoned := s.abandoned + s.job.depCmds, lateStop := false)
      case StopCalled => s.(stoppers := s.stoppers + [AtSection])
      case StopLocks(k) => StopTakes(s, k)
      case StopKills(k) => StopKillsOne(s, k)
      case TomcatStopped(k) => s.(job := MarkStopped(s.job), stoppers := s.stoppers[k := Returned])
      case TomcatStopFails(k, msg) =>
        s.(job := SetStatus(s.job, Error, msg), stoppers := s.stoppers[k := Returned])
      case OtherSets(status, err) => s.(job := SetStatus(s.job, status, err), foreign := true)
      case RspSetup(port, path) => s.(job := RspDeployed(s.job, port, path), foreign := true)
  }

  // Where a Stop is after its critical section.
  function AfterSection(taken: Taken): Stopper {
    match taken
    case TakeCmd(cmd) => KillingCmd(cmd)
    case TakeDeps(deps) => KillingDeps(deps)
    case TakeTomcat => StoppingTomcat
    case TakeNothing => Returned
  }

  function StopTakes(s: Sys, k: nat): Sys
    requires k < |s.stoppers|
  {
    var (job, taken) := StopSection(s.job);
    s.(job := job, stoppers := s.stoppers[k := AfterSection(taken)],
       lateStop := s.lateStop || (Aborted(s) && taken.TakeDeps?))
  }

  function StopKillsOne(s: Sys, k: nat): Sys
    requires k < |s.stoppers| && (s.stoppers[k].KillingCmd? || s.stoppers[k].KillingDeps?)
  {
    var stopper := s.stoppers[k];
    if stopper.KillingCmd? || stopper.deps == [] then
      s.(stoppers := s.stoppers[k := Returned])
    else
      s.(stoppers := s.stoppers[k := KillingDeps(stopper.deps[1..])], killed := s.killed + [stopper.deps[0]])
  }

  // The latest run ended before its final process was up.
  predicate Aborted(s: Sys) {
    s.runs != [] && s.runs[|s.runs| - 1].pc == Over(false)
  }

  predicate Valid(s: Sys, steps: seq<Step>)
    decreases |steps|
  {
    steps == [] || (Enabled(s, steps[0]) && Valid(Apply(s, steps[0]), steps[1..]))
  }

  function Exec(s: Sys, steps: seq<Step>): Sys
    requires Valid(s, steps)
    decreases |steps|
  {
    if steps == [] then s else Exec(Apply(s, steps[0]), steps[1..])
  }

  lemma {:induction false} ExecConcat(s: Sys, first: seq<Step>, second: seq<Step>)
    requires Valid(s, first) && Valid(Exec(s, first), second)
    ensures Valid(s, first + second) && Exec(s, first + second) == Exec(Exec(s, first), second)
    decreases |first|
  {
    hide Enabled, Apply;
    if first == [] {
      assert first + second == second;
    } else {
      assert (first + second)[1..] == first[1..] + second;
      ExecConcat(Apply(s, first[0]), first[1..], second);
    }
  }

  lemma Extend(steps: seq<Step>, step: Step)
    requires Valid(Init, steps) && Enabled(Exec(Init, steps), step)
    ensures Valid(Init, steps + [step]) && Exec(Init, steps + [step]) == Apply(Exec(Init, steps), step)
  {
    hide Enabled, Apply;
    var e := Exec(Init, steps);
    OneStep(e, step);
    ExecConcat(Init, steps, [step]);
  }

  lemma OneStep(s: Sys, step: Step)
    requires Enabled(s, step)
    ensures Valid(s, [step]) && Exec(s, [step]) == Apply(s, step)
  {
    hide Enabled, Apply;
    assert [step][1..] == [];
    assert Valid(Apply(s, step), []) && Exec(Apply(s, step), []) == Apply(s, step);
  }

  // The last step of a behaviour.
  lemma {:induction false} LastStep(s: Sys, steps: seq<Step>)
    requires Valid(s, steps) && steps != []
    ensures var front, last := steps[..|steps| - 1], steps[|steps| - 1];
      && Valid(s, front) && Enabled(Exec(s, front), last)
      && Exec(s, steps) == Apply(Exec(s, front), last)
    decreases |steps|
  {
    hide Enabled, Apply;
    var front := steps[..|steps| - 1];
    if |steps| == 1 {
      assert steps[1..] == [];
    } else {
      assert front[1..] == steps[1..][..|steps| - 2];
      LastStep(Apply(s, steps[0]), steps[1..]);
    }
  }

  // ---------------------------------------------------------------- ownership

  function Count(deps: seq<Cmd>, c: Cmd): nat {
    if deps == [] then 0 else (if deps[0] == c then 1 else 0) + Count(deps[1..], c)
  }

  lemma {:induction false} CountConcat(deps: seq<Cmd>, more: seq<Cmd>, c: Cmd)
    ensures Count(deps + more, c) == Count(deps, c) + Count(more, c)
  {
    if deps == [] {
      assert deps + more == more;
    } else {
      assert (deps + more)[1..] == deps[1..] + more;
      CountConcat(deps[1..], more, c);
    }
  }

  lemma CountNothing(c: Cmd)
    ensures Count([], c) == 0
  {
  }

  lemma CountOne(dep: Cmd, c: Cmd)
    ensures Count([dep], c) == if dep == c then 1 else 0
  {
    assert [dep][1..] == [];
  }

  lemma {:induction false} CountIsMembership(deps: seq<Cmd>, c: Cmd)
    ensures Count(deps, c) > 0 <==> c in deps
  {
    if deps == [] {
    } else {
      CountIsMembership(deps[1..], c);
      assert c in deps <==> deps[0] == c || c in deps[1..];
    }
  }

  // What a Stop still has to kill.
  function HeldByStop(st: Stopper): seq<Cmd> {
    if st.KillingDeps? then st.deps else []
  }

  // What a run has started but not yet published, or has taken at its end and not yet killed.
  function HeldByRun(run: Run): seq<Cmd> {
    match run.pc
    case ServiceStarted(_, dep) => [dep]
    case Reaping(deps) => deps
    case _ => []
  }

  function StopsHold(stoppers: seq<Stopper>, c: Cmd): nat {
    if stoppers == [] then 0 else Count(HeldByStop(stoppers[0]), c) + StopsHold(stoppers[1..], c)
  }

  function RunsHold(runs: seq<Run>, c: Cmd): nat {
    if runs == [] then 0 else Count(HeldByRun(runs[0]), c) + RunsHold(runs[1..], c)
  }

  // How often `c` is in a place from which it can still be killed.
  function Live(s: Sys, c: Cmd): nat {
    RunsHold(s.runs, c) + Count(s.job.depCmds, c) + StopsHold(s.stoppers, c)
  }

  predicate InOnePlace(s: Sys, c: Cmd) {
    Live(s, c) + Count(s.killed, c) + Count(s.abandoned, c) == Count(s.started, c) <= 1
  }

  /** Every dependency ever started is in exactly one place, exactly once, and nothing else is in any place. */
  ghost predicate Partitioned(s: Sys) {
    forall c :: InOnePlace(s, c)
  }

  lemma {:induction false} StopUpdate(stoppers: seq<Stopper>, k: nat, st: Stopper, c: Cmd)
    requires k < |stoppers|
    ensures StopsHold(stoppers[k := st], c) + Count(HeldByStop(stoppers[k]), c)
         == StopsHold(stoppers, c) + Count(HeldByStop(st), c)
  {
    if k == 0 {
      assert stoppers[k := st][1..] == stoppers[1..];
    } else {
      assert stoppers[k := st][1..] == stoppers[1..][k - 1 := st];
      StopUpdate(stoppers[1..], k - 1, st, c);
    }
  }

  lemma {:induction false} StopAppend(stoppers: seq<Stopper>, st: Stopper, c: Cmd)
    ensures StopsHold(stoppers + [st], c) == StopsHold(stoppers, c) + Count(HeldByStop(st), c)
  {
    if stoppers == [] {
      assert [st][1..] == [];
    } else {
      assert (stoppers + [st])[1..] == stoppers[1..] + [st];
      StopAppend(stoppers[1..], st, c);
    }
  }

  lemma {:induction false} RunUpdate(runs: seq<Run>, r: nat, run: Run, c: Cmd)
    requires r < |runs|
    ensures RunsHold(runs[r := run], c) + Count(HeldByRun(runs[r]), c)
         == RunsHold(runs, c) + Count(HeldByRun(run), c)
  {
    if r == 0 {
      assert runs[r := run][1..] == runs[1..];
    } else {
      assert runs[r := run][1..] == runs[1..][r - 1 := run];
      RunUpdate(runs[1..], r - 1, run, c);
    }
  }

  lemma {:induction false} RunAppend(runs: seq<Run>, run: Run, c: Cmd)
    ensures RunsHold(runs + [run], c) == RunsHold(runs, c) + Count(HeldByRun(run), c)
  {
    if runs == [] {
      assert [run][1..] == [];
    } else {
      assert (runs + [run])[1..] == runs[1..] + [run];
      RunAppend(runs[1..], run, c);
    }
  }

  lemma StopTakesKeepsPlace(s: Sys, k: nat, c: Cmd)
    requires InOnePlace(s, c) && k < |s.stoppers| && s.stoppers[k].AtSection?
    ensures InOnePlace(StopTakes(s, k), c)
  {
    StopUpdate(s.stoppers, k, StopTakes(s, k).stoppers[k], c);
  }

  lemma StopKillsKeepsPlace(s: Sys, k: nat, c: Cmd)
    requires k < |s.stoppers| && (s.stoppers[k].KillingCmd? || s.stoppers[k].KillingDeps?)
    requires InOnePlace(s, c)
    ensures InOnePlace(StopKillsOne(s, k), c)
  {
    var deps := HeldByStop(s.stoppers[k]);
    StopUpdate(s.stoppers, k, StopKillsOne(s, k).stoppers[k], c);
    if deps != [] {
      CountConcat(s.killed, [deps[0]], c);
    }
  }

  // The steps of a run that hand a dependency on.
  predicate MovesDeps(step: Step) {
    step.StartService? || step.Publish? || step.Finish? || step.ReapOne?
  }

  lemma HoldsOn(s: Sys, step: Step)
    requires OfRun(step) && Enabled(s, step) && !MovesDeps(step)
    ensures var after := Apply(s, step);
      && HeldByRun(s.runs[step.r]) == HeldByRun(after.runs[step.r]) == []
      && after == s.(job := after.job, runs := s.runs[step.r := after.runs[step.r]])
      && after.job.depCmds == s.job.depCmds
  {
  }

  lemma HandsOn(s: Sys, step: Step)
    requires OfRun(step) && Enabled(s, step) && MovesDeps(step)
    ensures var after := Apply(s, step);
      var before, now := HeldByRun(s.runs[step.r]), HeldByRun(after.runs[step.r]);
      && after.runs == s.runs[step.r := after.runs[step.r]]
      && after.stoppers == s.stoppers && after.abandoned == s.abandoned
      && (step.StartService? ==>
            && before == [] && now == [step.dep] && step.dep !in s.started
            && after.started == s.started + [step.dep])
      && (step.Publish? ==> now == [] && after.job.depCmds == s.job.depCmds + before)
      && (step.Finish? ==> before == [] && now == s.job.depCmds && after.job.depCmds == [])
      && (step.ReapOne? ==> before == [before[0]] + now && after.killed == s.killed + [before[0]])
      && (!step.StartService? ==> after.started == s.started)
      && (!step.ReapOne? ==> after.killed == s.killed)
      && (step.StartService? || step.ReapOne? ==> after.job.depCmds == s.job.depCmds)
  {
  }

  lemma RunKeepsPlace(s: Sys, step: Step, c: Cmd)
    requires InOnePlace(s, c) && OfRun(step) && Enabled(s, step)
    ensures InOnePlace(Apply(s, step), c)
  {
    hide Ready, Apply, HeldByRun, StopsHold, RunsHold, Count;
    CountNothing(c);
    var after := Apply(s, step);
    if MovesDeps(step) {
      HandsOn(s, step);
      var before := HeldByRun(s.runs[step.r]);
      RunUpdate(s.runs, step.r, after.runs[step.r], c);
      match step
      case StartService(_, dep) =>
        CountIsMembership(s.started, c);
        CountConcat(s.started, [dep], c);
        CountOne(dep, c);
      case Publish(_) => CountConcat(s.job.depCmds, before, c);
      case ReapOne(_) =>
        CountConcat(s.killed, [before[0]], c);
        CountConcat([before[0]], before[1..], c);
      case Finish(_) =>
    } else {
      HoldsOn(s, step);
      RunUpdate(s.runs, step.r, after.runs[step.r], c);
    }
  }

  lemma BeginKeepsPlace(s: Sys, port: int, chain: seq<ChainCmd>, c: Cmd)
    requires InOnePlace(s, c)
    ensures InOnePlace(Apply(s, Begin(port, chain)), c)
  {
    hide RunsHold, StopsHold;
    RunAppend(s.runs, Run(chain, Beginning), c);
    CountConcat(s.abandoned, s.job.depCmds, c);
  }

  lemma InOnePlaceStep(s: Sys, step: Step, c: Cmd)
    requires InOnePlace(s, c) && Enabled(s, step)
    ensures InOnePlace(Apply(s, step), c)
  {
    hide RunsHold, StopsHold;
    if OfRun(step) {
      RunKeepsPlace(s, step, c);
    } else {
      match step
      case Begin(port, chain) => BeginKeepsPlace(s, port, chain, c);
      case StopCalled => StopAppend(s.stoppers, AtSection, c);
      case StopLocks(k) => StopTakesKeepsPlace(s, k, c);
      case StopKills(k) => StopKillsKeepsPlace(s, k, c);
      case TomcatStopped(k) => StopUpdate(s.stoppers, k, Returned, c);
      case TomcatStopFails(k, _) => StopUpdate(s.stoppers, k, Returned, c);
      case _ =>
    }
  }

  /** In every reachable state of every interleaving: any chains, any number of runs and of Stops. */
  lemma {:induction false} DependenciesPartitioned(s: Sys, steps: seq<Step>)
    requires Partitioned(s) && Valid(s, steps)
    ensures Partitioned(Exec(s, steps))
    decreases |steps|
  {
    hide InOnePlace, Enabled, Apply;
    if steps == [] {
    } else {
      forall c ensures InOnePlace(Apply(s, steps[0]), c) {
        InOnePlaceStep(s, steps[0], c);
      }
      DependenciesPartitioned(Apply(s, steps[0]), steps[1..]);
    }
  }

  lemma InitHolds()
    ensures Partitioned(Init) && Control(Init) && CmdInv(Init)
  {
    forall c ensures InOnePlace(Init, c) {
    }
  }

  // Still running: started and not killed.
  predicate Alive(s: Sys, c: Cmd) {
    c in s.started && c !in s.killed
  }

  // Somebody who can kill it still has it.
  predicate Held(s: Sys, c: Cmd) {
    c in s.job.depCmds || StopsHold(s.stoppers, c) > 0 || RunsHold(s.runs, c) > 0
  }

  /**
    Whatever is still running is in `depCmds`, with a Stop or with a run, or it was dropped by a run
    that was begun over it; and whatever is in one of these places is still running.
  */
  lemma AliveIffHeld(steps: seq<Step>, c: Cmd)
    requires Valid(Init, steps)
    ensures var e := Exec(Init, steps);
      && (Alive(e, c) <==> Held(e, c) || c in e.abandoned)
      && !(Held(e, c) && c in e.abandoned)
  {
    hide Valid, Exec, StopsHold, RunsHold, Count;
    InitHolds();
    DependenciesPartitioned(Init, steps);
    var e := Exec(Init, steps);
    assert InOnePlace(e, c);
    CountIsMembership(e.started, c);
    CountIsMembership(e.killed, c);
    CountIsMembership(e.abandoned, c);
    CountIsMembership(e.job.depCmds, c);
  }

  // Every run of this behaviour is begun with an empty depCmds.
  predicate BegunClean(s: Sys, steps: seq<Step>)
    requires Valid(s, steps)
    decreases |steps|
  {
    steps == [] ||
    ((steps[0].Begin? ==> s.job.depCmds == []) && BegunClean(Apply(s, steps[0]), steps[1..]))
  }

  /** Dependencies are orphaned by exactly one thing: beginning a run while `depCmds` is not empty. */
  lemma {:induction false} OrphansIffBegunOver(s: Sys, steps: seq<Step>)
    requires Valid(s, steps)
    ensures Exec(s, steps).abandoned == [] <==> s.abandoned == [] && BegunClean(s, steps)
    decreases |steps|
  {
    if steps == [] {
    } else {
      OrphansIffBegunOver(Apply(s, steps[0]), steps[1..]);
    }
  }

  /** Everything still running can still be killed by somebody, if and only if no run was begun over services. */
  lemma AllHeldIffBegunClean(steps: seq<Step>)
    requires Valid(Init, steps)
    ensures BegunClean(Init, steps) <==> forall c | Alive(Exec(Init, steps), c) :: Held(Exec(Init, steps), c)
  {
    hide Valid, Exec, Alive, Held, BegunClean;
    OrphansIffBegunOver(Init, steps);
    var e := Exec(Init, steps);
    forall c ensures Alive(e, c) <==> Held(e, c) || c in e.abandoned {
      AliveIffHeld(steps, c);
    }
    if e.abandoned != [] {
      AliveIffHeld(steps, e.abandoned[0]);
    }
  }

  // ---------------------------------------------------------------- the process of a running job

  predicate FinalIsUp(pc: RunPc) {
    pc.Waiting? || pc.Exited?
  }

  // Some run has this final process, started and published.
  predicate IsUp(s: Sys, c: Cmd) {
    exists r | 0 <= r < |s.runs| :: FinalIsUp(s.runs[r].pc) && s.runs[r].pc.final == c
  }

  predicate CmdInv(s: Sys) {
    && (!s.foreign && s.job.status == Running ==> s.job.cmd.Some?)
    && (s.job.cmd.Some? ==> IsUp(s, s.job.cmd.value))
  }

  lemma StaysUp(s: Sys, step: Step, c: Cmd)
    requires OfRun(step) && Enabled(s, step) && !step.Finish? && IsUp(s, c)
    ensures IsUp(Apply(s, step), c)
  {
    var after := Apply(s, step);
    var r :| 0 <= r < |s.runs| && FinalIsUp(s.runs[r].pc) && s.runs[r].pc.final == c;
    assert FinalIsUp(after.runs[r].pc) && after.runs[r].pc.final == c;
  }

  lemma RunCmdStep(s: Sys, step: Step)
    requires CmdInv(s) && OfRun(step) && Enabled(s, step)
    ensures CmdInv(Apply(s, step))
  {
    hide IsUp;
    var after := Apply(s, step);
    if step.PublishFinal? {
      IsUpNow(after, step.r);
    } else if s.job.cmd.Some? && !step.Finish? {
      StaysUp(s, step, s.job.cmd.value);
    }
  }

  lemma IsUpNow(s: Sys, r: nat)
    requires r < |s.runs| && FinalIsUp(s.runs[r].pc)
    ensures IsUp(s, s.runs[r].pc.final)
  {
  }

  lemma OtherCmdStep(s: Sys, step: Step)
    requires CmdInv(s) && !OfRun(step) && Enabled(s, step)
    ensures CmdInv(Apply(s, step))
  {
    var after := Apply(s, step);
    assert after.runs == s.runs || after.runs == s.runs + [Run(step.chain, Beginning)];
    if s.job.cmd.Some? {
      var r :| 0 <= r < |s.runs| && FinalIsUp(s.runs[r].pc) && s.runs[r].pc.final == s.job.cmd.value;
      assert after.runs[r] == s.runs[r];
    }
  }

  lemma {:induction false} CmdAlways(s: Sys, steps: seq<Step>)
    requires CmdInv(s) && Valid(s, steps)
    ensures CmdInv(Exec(s, steps))
    decreases |steps|
  {
    hide CmdInv, Enabled, Apply;
    if steps == [] {
    } else {
      if OfRun(steps[0]) {
        RunCmdStep(s, steps[0]);
      } else {
        OtherCmdStep(s, steps[0]);
      }
      CmdAlways(Apply(s, steps[0]), steps[1..]);
    }
  }

  /**
    For a job that receives only runs and stops, however they overlap, a Running status means a
    process to stop, and that process is the final one of a run that is not over.
  */
  lemma RunningMeansStoppable(steps: seq<Step>)
    requires Valid(Init, steps)
    ensures var e := Exec(Init, steps);
      && (!e.foreign && e.job.status == Running ==> e.job.cmd.Some?)
      && (e.job.cmd.Some? ==> IsUp(e, e.job.cmd.value))
  {
    hide Valid, Exec;
    InitHolds();
    CmdAlways(Init, steps);
  }

  // ---------------------------------------------------------------- one run at a time

  predicate AllOver(runs: seq<Run>) {
    forall run <- runs :: run.pc.Over?
  }

  // No run of this behaviour is begun before the earlier ones are over.
  predicate OneAtATime(s: Sys, steps: seq<Step>)
    requires Valid(s, steps)
    decreases |steps|
  {
    steps == [] ||
    ((steps[0].Begin? ==> AllOver(s.runs)) && OneAtATime(Apply(s, steps[0]), steps[1..]))
  }

  // The final process of this run has ended and its result is recorded.
  predicate Ended(pc: RunPc) {
    pc.Reaping? || pc == Over(true)
  }

  function LatestPc(s: Sys): RunPc
    requires s.runs != []
  {
    s.runs[|s.runs| - 1].pc
  }

  ghost predicate Control(s: Sys) {
    && (forall r | 0 <= r < |s.runs| - 1 :: s.runs[r].pc.Over?)
    && s.job.cmd == (if s.runs != [] && FinalIsUp(LatestPc(s)) then Some(LatestPc(s).final) else None)
    && (s.runs == [] || Ended(LatestPc(s)) ==> s.job.depCmds == [])
    && (!s.foreign ==> StatusControl(s))
  }

  // What holds while only run and stop write the job.
  ghost predicate StatusControl(s: Sys) {
    && !s.job.rspManaged
    && (forall st <- s.stoppers :: !st.StoppingTomcat?)
    && (s.runs != [] && Ended(LatestPc(s)) ==>
          if s.job.stopping then s.job.status == Stopped else s.job.status in {Done, Error})
    && (!Aborted(s) ==> !s.lateStop)
    && (Aborted(s) ==> s.job.status == if s.lateStop then Stopped else Error)
  }

  lemma StopperControlStep(s: Sys, step: Step)
    requires Control(s) && Enabled(s, step) && OfStopper(step)
    ensures Control(Apply(s, step))
  {
    var k := step.k;
    var after := Apply(s, step);
    assert s.stoppers[k] in s.stoppers;
    assert forall st | st in after.stoppers :: st in s.stoppers || st == after.stoppers[k];
  }

  lemma OneRunMoves(s: Sys, step: Step)
    requires Enabled(s, step) && OfRun(step)
    ensures var after := Apply(s, step);
      && step.r < |s.runs| && Ready(s.runs[step.r], step)
      && after.runs == s.runs[step.r := s.runs[step.r].(pc := NextPc(s.job, s.runs[step.r], step))]
      && after.job == RunWrites(s.job, s.runs[step.r], step)
      && after.stoppers == s.stoppers && after.lateStop == s.lateStop && after.foreign == s.foreign
  {
  }

  lemma RunControlStep(s: Sys, step: Step)
    requires Control(s) && Enabled(s, step) && OfRun(step)
    ensures Control(Apply(s, step))
  {
    hide Enabled, Apply;
    OneRunMoves(s, step);
    assert step.r == |s.runs| - 1;
  }

  lemma OtherControlStep(s: Sys, step: Step)
    requires Control(s) && Enabled(s, step) && !OfRun(step) && !OfStopper(step)
    requires step.Begin? ==> AllOver(s.runs)
    ensures Control(Apply(s, step))
  {
  }

  lemma ControlStep(s: Sys, step: Step)
    requires Control(s) && Enabled(s, step) && (step.Begin? ==> AllOver(s.runs))
    ensures Control(Apply(s, step))
  {
    hide Control, Enabled, Apply;
    if OfStopper(step) {
      StopperControlStep(s, step);
    } else if OfRun(step) {
      RunControlStep(s, step);
    } else {
      OtherControlStep(s, step);
    }
  }

  lemma {:induction false} ControlAlways(s: Sys, steps: seq<Step>)
    requires Control(s) && Valid(s, steps) && OneAtATime(s, steps)
    ensures Control(Exec(s, steps))
    decreases |steps|
  {
    hide Control, Enabled, Apply;
    if steps == [] {
    } else {
      ControlStep(s, steps[0]);
      ControlAlways(Apply(s, steps[0]), steps[1..]);
    }
  }

  // ---------------------------------------------------------------- what is left when a run is over

  predicate AllReturned(s: Sys) {
    forall st <- s.stoppers :: st.Returned?
  }

  lemma {:induction false} NothingWithStops(stoppers: seq<Stopper>, c: Cmd)
    requires forall st <- stoppers :: st.Returned?
    ensures StopsHold(stoppers, c) == 0
  {
    if stoppers == [] {
    } else {
      assert stoppers[0] in stoppers;
      NothingWithStops(stoppers[1..], c);
    }
  }

  lemma {:induction false} NothingWithRuns(runs: seq<Run>, c: Cmd)
    requires AllOver(runs)
    ensures RunsHold(runs, c) == 0
  {
    if runs == [] {
    } else {
      assert runs[0] in runs;
      assert forall run <- runs[1..] :: run in runs;
      NothingWithRuns(runs[1..], c);
    }
  }

  /**
    When all runs are over and all Stops have returned, however they overlapped, what still runs is
    what is in `depCmds` and what was orphaned; everything else was killed, exactly once.
  */
  lemma WhatSurvives(steps: seq<Step>)
    requires Valid(Init, steps)
    ensures var e := Exec(Init, steps);
      AllOver(e.runs) && AllReturned(e) ==>
        && (forall c :: Alive(e, c) <==> c in e.job.depCmds || c in e.abandoned)
        && (forall c :: Count(e.job.depCmds, c) + Count(e.killed, c) + Count(e.abandoned, c) == Count(e.started, c) <= 1)
  {
    hide Valid, Exec, Count, StopsHold, RunsHold, Alive;
    InitHolds();
    DependenciesPartitioned(Init, steps);
    var e := Exec(Init, steps);
    if AllOver(e.runs) && AllReturned(e) {
      forall c
        ensures Alive(e, c) <==> c in e.job.depCmds || c in e.abandoned
        ensures Count(e.job.depCmds, c) + Count(e.killed, c) + Count(e.abandoned, c) == Count(e.started, c) <= 1
      {
        assert InOnePlace(e, c);
        AliveIffHeld(steps, c);
        NothingWithStops(e.stoppers, c);
        NothingWithRuns(e.runs, c);
      }
    }
  }

  /**
    One run at a time: once the latest run got as far as its final process and everyone has returned,
    nothing is left behind. `cmd` and `depCmds` are empty and each dependency ever started was
    killed, exactly once, unless some run had been begun over its head.
  */
  lemma CompletedRunLeavesNothing(steps: seq<Step>)
    requires Valid(Init, steps) && OneAtATime(Init, steps)
    ensures var e := Exec(Init, steps);
      e.runs != [] && LatestPc(e) == Over(true) && AllReturned(e) ==>
        && e.job.cmd.None? && e.job.depCmds == []
        && forall c :: Count(e.killed, c) + Count(e.abandoned, c) == Count(e.started, c) <= 1
  {
    hide Valid, Exec;
    InitHolds();
    ControlAlways(Init, steps);
    WhatSurvives(steps);
    var e := Exec(Init, steps);
    if e.runs != [] && LatestPc(e) == Over(true) && AllReturned(e) {
      forall run | run in e.runs ensures run.pc.Over? {
      }
      assert forall c :: Count(e.job.depCmds, c) == 0;
    }
  }

  /**
    One run at a time: after a run that failed on the way, what still runs is in `depCmds`, with a
    Stop that is still killing, or orphaned.
  */
  lemma AbortedRunKeepsSurvivors(steps: seq<Step>, c: Cmd)
    requires Valid(Init, steps) && OneAtATime(Init, steps)
    ensures var e := Exec(Init, steps);
      Aborted(e) ==> (Alive(e, c) <==> c in e.job.depCmds || StopsHold(e.stoppers, c) > 0 || c in e.abandoned)
  {
    hide Valid, Exec, StopsHold;
    InitHolds();
    ControlAlways(Init, steps);
    AliveIffHeld(steps, c);
    var e := Exec(Init, steps);
    if Aborted(e) {
      forall run | run in e.runs ensures run.pc.Over? {
      }
      NothingWithRuns(e.runs, c);
    }
  }

  function Kills(k: nat, n: nat): seq<Step> {
    if n == 0 then [] else [StopKills(k)] + Kills(k, n - 1)
  }

  lemma {:induction false} KillsDrain(s: Sys, k: nat, deps: seq<Cmd>)
    requires k < |s.stoppers| && s.stoppers[k] == KillingDeps(deps)
    ensures Valid(s, Kills(k, |deps| + 1))
    ensures Exec(s, Kills(k, |deps| + 1)) == s.(stoppers := s.stoppers[k := Returned], killed := s.killed + deps)
    decreases |deps|
  {
    var s' := Apply(s, StopKills(k));
    assert Kills(k, |deps| + 1)[1..] == Kills(k, |deps|);
    if deps == [] {
      assert s.killed + deps == s.killed;
    } else {
      KillsDrain(s', k, deps[1..]);
      assert s'.stoppers[k := Returned] == s.stoppers[k := Returned];
      assert s.killed + deps == s'.killed + deps[1..];
    }
  }

  // One complete Stop call, by itself: it arrives, locks, and kills what it took.
  function OneStop(s: Sys): seq<Step> {
    [StopCalled, StopLocks(|s.stoppers|)] + Kills(|s.stoppers|, |s.job.depCmds| + 1)
  }

  /**
    In any state without a final process, such as after a failed run, one further Stop of a job that
    RSP does not manage kills exactly what is in `depCmds`.
  */
  lemma OneStopReapsSurvivors(s: Sys)
    requires s.job.cmd.None? && !s.job.rspManaged && s.job.depCmds != []
    ensures Valid(s, OneStop(s))
    ensures var e := Exec(s, OneStop(s));
      && e.job.depCmds == [] && e.killed == s.killed + s.job.depCmds
      && e.job.status == Stopped && e.stoppers == s.stoppers + [Returned]
  {
    var k := |s.stoppers|;
    var s1 := Apply(s, StopCalled);
    var s2 := Apply(s1, StopLocks(k));
    KillsDrain(s2, k, s.job.depCmds);
    var lead := [StopCalled, StopLocks(k)];
    assert lead[1..] == [StopLocks(k)];
    var tail := [StopLocks(k)];
    assert Valid(s2, tail[1..]) && Exec(s2, tail[1..]) == s2;
    assert Valid(s1, tail) && Exec(s1, tail) == s2;
    ExecConcat(s, lead, Kills(k, |s.job.depCmds| + 1));
    assert s2.stoppers[k := Returned] == s.stoppers + [Returned];
  }

  // ---------------------------------------------------------------- stopping

  predicate NoBegin(steps: seq<Step>) {
    forall step <- steps :: !step.Begin?
  }

  // This Stop finds something to stop.
  predicate TakesEffect(j: JobState) {
    j.cmd.Some? || (!j.rspManaged && j.depCmds != [])
  }

  lemma {:induction false} StoppingStays(s: Sys, steps: seq<Step>)
    requires Valid(s, steps) && NoBegin(steps) && s.job.stopping
    ensures Exec(s, steps).job.stopping && OneAtATime(s, steps)
    decreases |steps|
  {
    if steps == [] {
    } else {
      assert steps[0] in steps;
      assert forall step | step in steps[1..] :: step in steps;
      StoppingStays(Apply(s, steps[0]), steps[1..]);
    }
  }

  /**
    A Stop that takes effect is sticky for the rest of the run, whatever the exit code: a run that
    gets to its final process ends Stopped. A run that fails on the way ends with status Error
    instead, unless another Stop takes its survivors after the failure.
  */
  lemma StopIsSticky(s: Sys, k: nat, steps: seq<Step>)
    requires Control(s) && s.runs != [] && TakesEffect(s.job)
    requires Valid(s, [StopLocks(k)] + steps) && NoBegin(steps)
    ensures var e := Exec(s, [StopLocks(k)] + steps);
      && e.job.stopping && e.runs != []
      && (!e.foreign && Ended(LatestPc(e)) ==> e.job.status == Stopped)
      && (!e.foreign && Aborted(e) ==> (e.job.status == Stopped <==> e.lateStop) && e.job.status in {Stopped, Error})
  {
    var all := [StopLocks(k)] + steps;
    assert all[1..] == steps;
    StoppingStays(Apply(s, StopLocks(k)), steps);
    ControlAlways(s, all);
    RunsStay(Apply(s, StopLocks(k)), steps);
  }

  lemma {:induction false} RunsStay(s: Sys, steps: seq<Step>)
    requires Valid(s, steps)
    ensures |Exec(s, steps).runs| >= |s.runs|
    decreases |steps|
  {
    if steps == [] {
    } else {
      RunsStay(Apply(s, steps[0]), steps[1..]);
    }
  }
}
