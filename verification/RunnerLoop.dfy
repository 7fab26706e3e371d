/**
  `runLongWithPort` and `Stop` as programs: critical sections on the job, process starts and kills,
  and loops over the chain and over the dependencies to kill. Between any two of these, other
  goroutines may do whatever the machine in JobLifecycle allows, on the same job. Both methods are
  proved to take only steps of that machine, so its theorems hold of every mixture of their calls.
*/
module RunnerLoop {
  import opened Wrappers
  import opened Jobs
  import opened JobLifecycle
  import opened JobRecords

  // A name for a process that no dependency has had.
  function FreshCmd(started: seq<Cmd>): (c: Cmd)
    ensures forall other <- started :: other < c
  {
    if started == [] then 0
    else
      var rest := FreshCmd(started[1..]);
      assert forall other <- started :: other == started[0] || other in started[1..];
      if started[0] < rest then rest else started[0] + 1
  }

  // A name for a process that no run has.
  function FreshFinal(runs: seq<Run>): (c: Cmd)
    ensures forall run <- runs :: HasFinal(run.pc) ==> run.pc.final < c
  {
    if runs == [] then 0
    else
      var rest := FreshFinal(runs[1..]);
      assert forall run <- runs :: run == runs[0] || run in runs[1..];
      if HasFinal(runs[0].pc) && rest <= runs[0].pc.final then runs[0].pc.final + 1 else rest
  }

  // Run number `r` is where it was.
  predicate SameRun(r: nat, before: Sys, after: Sys) {
    r < |before.runs| <= |after.runs| && after.runs[r] == before.runs[r]
  }

  // Stop number `k` is where it was, and nothing killed has come back.
  predicate SameStop(k: nat, before: Sys, after: Sys) {
    && k < |before.stoppers| <= |after.stoppers|
    && after.stoppers[k] == before.stoppers[k]
    && before.killed <= after.killed
  }

  // What is known to have been started, killed or orphaned stays so.
  predicate Grown(before: Sys, after: Sys) {
    before.started <= after.started && before.killed <= after.killed && before.abandoned <= after.abandoned
  }

  predicate StepOfRun(step: Step, r: nat) {
    OfRun(step) && step.r == r
  }

  predicate StepOfStop(step: Step, k: nat) {
    OfStopper(step) && step.k == k
  }

  lemma OtherStepsKeepRun(r: nat, s: Sys, step: Step)
    requires r < |s.runs| && Enabled(s, step) && !StepOfRun(step, r)
    ensures SameRun(r, s, Apply(s, step))
  {
  }

  lemma OtherStepsKeepStop(k: nat, s: Sys, step: Step)
    requires k < |s.stoppers| && Enabled(s, step) && !StepOfStop(step, k)
    ensures SameStop(k, s, Apply(s, step))
  {
  }

  lemma StepGrows(s: Sys, step: Step)
    requires Enabled(s, step)
    ensures Grown(s, Apply(s, step))
  {
  }

  class Runner {
    const job: Job
    var sys: Sys
    ghost var trace: seq<Step>

    // The steps taken so far are a behaviour of the machine up to `s`.
    ghost predicate Led(s: Sys)
      reads this
    {
      Valid(Init, trace) && sys == Exec(Init, trace) == s
    }

    ghost predicate Faithful()
      reads this, job
    {
      Led(sys) && sys.job == job.View()
    }

    constructor (job: Job)
      requires job.View() == NewJob
      ensures Faithful() && sys == Init && this.job == job
    {
      this.job, sys, trace := job, Init, [];
    }

    // The job is as this step leaves it, or the step does not write the job.
    method Record(step: Step)
      requires Led(sys) && Enabled(sys, step) && Apply(sys, step).job == job.View()
      modifies this
      ensures Faithful() && sys == Apply(old(sys), step) && trace == old(trace) + [step]
    {
      hide Valid, Exec, Enabled, Apply;
      Extend(trace, step);
      sys := Apply(sys, step);
      trace := trace + [step];
    }

    // One step of anybody.
    method Perform(step: Step)
      requires Faithful() && Enabled(sys, step)
      modifies this, job
      ensures Faithful() && sys == Apply(old(sys), step) && trace == old(trace) + [step]
    {
      hide Valid, Exec, SetStatus, BeginRun, PublishDep, PublishCmd, FinishRun, StopSection, MarkStopped, RspDeployed;
      match step {
        case Begin(port, _) => job.Begin(port);
        case MarkBuilding(_) => job.Set(Building, "");
        case Publish(r) => job.AppendDep(sys.runs[r].pc.dep);
        case PublishFinal(r) => job.SetRunning(sys.runs[r].pc.final);
        case Finish(r) => var deps := job.Finish(sys.runs[r].pc.exit);
        case RecordFailure(r) => job.Set(Error, sys.runs[r].pc.msg);
        case StopLocks(_) => var taken := job.Stop();
        case TomcatStopped(_) => job.ResetStopped();
        case TomcatStopFails(_, msg) => job.Set(Error, msg);
        case OtherSets(status, err) => job.Set(status, err);
        case RspSetup(port, path) => job.Deployed(port, path);
        case _ =>
      }
      Record(step);
    }

    // Whatever the other goroutines do while run number `r` is between two of its steps.
    method OthersAct(r: nat)
      requires Faithful() && r < |sys.runs|
      modifies this, job
      ensures Faithful() && SameRun(r, old(sys), sys) && Grown(old(sys), sys) && old(trace) <= trace
    {
      hide Valid, Exec, Apply, Enabled;
      var n: nat := *;
      while n > 0
        invariant Faithful() && SameRun(r, old(sys), sys) && Grown(old(sys), sys) && old(trace) <= trace
      {
        var step: Step := *;
        if !StepOfRun(step, r) && Enabled(sys, step) {
          OtherStepsKeepRun(r, sys, step);
          StepGrows(sys, step);
          Perform(step);
        }
        n := n - 1;
      }
    }

    // Every dependency still running is with somebody who can kill it, or was dropped by a run begun
    // over it; the latter if and only if some run was begun over services.
    ghost predicate AllAccountedFor()
      reads this
      requires Valid(Init, trace)
    {
      && (forall c: Cmd :: Alive(sys, c) <==> Held(sys, c) || c in sys.abandoned)
      && (BegunClean(Init, trace) <==> sys.abandoned == [])
    }

    lemma AllAccounted()
      requires Faithful()
      ensures AllAccountedFor()
    {
      hide Valid, Exec, Alive, Held, BegunClean;
      forall c: Cmd ensures Alive(sys, c) <==> Held(sys, c) || c in sys.abandoned {
        AliveIffHeld(trace, c);
      }
      OrphansIffBegunOver(Init, trace);
    }

    /**
      The loop over the chain. Every service is started and then published, or refused to start;
      tasks run to their end, and the first that fails ends the run.
    */
    method StartChain(r: nat) returns (failed: bool, mine: seq<Cmd>, refused: nat)
      requires Faithful() && r < |sys.runs| && sys.runs[r].pc == AtChain(0)
      modifies this, job
      ensures Faithful() && r < |sys.runs| && sys.runs[r].chain == old(sys.runs[r].chain)
      ensures Grown(old(sys), sys) && old(trace) <= trace
      ensures if failed then sys.runs[r].pc.Failing? else sys.runs[r].pc == AtChain(|sys.runs[r].chain|)
      ensures !failed ==> |mine| + refused == Services(sys.runs[r].chain)
      ensures forall c <- mine :: c in sys.started
    {
      hide Valid, Exec;
      var chain := sys.runs[r].chain;
      var i := 0;
      failed, mine, refused := false, [], 0;
      while i < |chain|
        invariant Faithful() && Grown(old(sys), sys) && old(trace) <= trace
        invariant 0 <= i <= |chain| && r < |sys.runs| && sys.runs[r] == Run(chain, AtChain(i))
        invariant |mine| + refused == Services(chain[..i])
        invariant forall c <- mine :: c in sys.started
      {
        OthersAct(r);
        OneMoreCmd(chain, i);
        if chain[i].Service? {
          var dep := StartOne(r);
          if dep.Some? {
            mine := mine + [dep.value];
          } else {
            refused := refused + 1;
          }
        } else {
          failed := RunTask(r);
          if failed {
            return;
          }
        }
        i := i + 1;
      }
      assert chain[..i] == chain;
    }

    // The window between starting a service and publishing it is open to others.
    method StartOne(r: nat) returns (dep: Option<Cmd>)
      requires Faithful() && r < |sys.runs| && AtCmd(sys.runs[r], Service)
      modifies this, job
      ensures Faithful() && r < |sys.runs| && Grown(old(sys), sys) && old(trace) <= trace
      ensures sys.runs[r] == Run(old(sys.runs[r].chain), AtChain(old(sys.runs[r].pc.next) + 1))
      ensures dep.Some? ==> dep.value in sys.started && dep.value !in old(sys.started)
    {
      hide Valid, Exec;
      var starts: bool := *;
      if !starts {
        Record(StartServiceFails(r));
        return None;
      }
      var new_ := FreshCmd(sys.started);
      ghost var place := |sys.started|;
      Record(StartService(r, new_));
      OthersAct(r);
      assert sys.started[place] == new_;
      job.AppendDep(new_);
      Record(Publish(r));
      return Some(new_);
    }

    method RunTask(r: nat) returns (failed: bool)
      requires Faithful() && r < |sys.runs| && AtCmd(sys.runs[r], Task)
      modifies this, job
      ensures Faithful() && r < |sys.runs|
      ensures sys.started == old(sys.started) && sys.killed == old(sys.killed) && sys.abandoned == old(sys.abandoned)
      ensures old(trace) <= trace
      ensures if failed then sys.runs[r].pc.Failing? && sys.runs[r].chain == old(sys.runs[r].chain)
        else sys.runs[r] == Run(old(sys.runs[r].chain), AtChain(old(sys.runs[r].pc.next) + 1))
    {
      hide Valid, Exec;
      var error: Option<string> := *;
      if error.Some? {
        Record(TaskFails(r, error.value));
        return true;
      }
      Record(TaskDone(r));
      return false;
    }

    // Another window: the final process is up before `cmd` says so.
    method StartFinalProcess(r: nat) returns (failed: bool)
      requires Faithful() && r < |sys.runs| && AtFinal(sys.runs[r])
      modifies this, job
      ensures Faithful() && r < |sys.runs| && Grown(old(sys), sys) && old(trace) <= trace
      ensures sys.runs[r].chain == old(sys.runs[r].chain)
      ensures if failed then sys.runs[r].pc.Failing?
        else sys.runs[r].pc.Waiting? && job.cmd == Some(sys.runs[r].pc.final) && job.status == Running
    {
      hide Valid, Exec;
      var error: Option<string> := *;
      if error.Some? {
        Record(StartFinalFails(r, error.value));
        return true;
      }
      var final := FreshFinal(sys.runs);
      Record(StartFinal(r, final));
      OthersAct(r);
      job.SetRunning(final);
      Record(PublishFinal(r));
      return false;
    }

    // The process ends on its own or is killed.
    method AwaitExit(r: nat) returns (exit: Option<string>)
      requires Faithful() && r < |sys.runs| && sys.runs[r].pc.Waiting?
      modifies this, job
      ensures Faithful() && r < |sys.runs| && Grown(old(sys), sys) && old(trace) <= trace
      ensures sys.runs[r] == Run(old(sys.runs[r].chain), Exited(old(sys.runs[r].pc.final), exit))
    {
      hide Valid, Exec;
      OthersAct(r);
      exit := *;
      Record(FinalExits(r, exit));
      OthersAct(r);
    }

    // The critical section at the end of a run.
    method FinishSection(r: nat, exit: Option<string>) returns (deps: seq<Cmd>)
      requires Faithful() && r < |sys.runs| && sys.runs[r].pc.Exited? && sys.runs[r].pc.exit == exit
      modifies this, job
      ensures Faithful() && r < |sys.runs| && sys.runs[r] == Run(old(sys.runs[r].chain), Reaping(deps))
      ensures deps == old(job.depCmds) && job.depCmds == [] && job.cmd == None
      ensures job.status == if old(job.stopping) then Stopped else if exit.Some? then Error else Done
      ensures job.err == if !old(job.stopping) && exit.Some? then exit.value else old(job.err)
      ensures sys.started == old(sys.started) && sys.killed == old(sys.killed) && sys.abandoned == old(sys.abandoned)
      ensures old(trace) <= trace
    {
      hide Valid, Exec;
      deps := job.Finish(exit);
      Record(Finish(r));
    }

    // The dependencies found at the end of a run are killed one by one, all of them.
    method ReapAll(r: nat, deps: seq<Cmd>)
      requires Faithful() && r < |sys.runs| && sys.runs[r].pc == Reaping(deps)
      modifies this, job
      ensures Faithful() && r < |sys.runs| && sys.runs[r] == Run(old(sys.runs[r].chain), Over(true))
      ensures Grown(old(sys), sys) && old(trace) <= trace && forall c <- deps :: c in sys.killed
    {
      hide Valid, Exec;
      var i := 0;
      while i < |deps|
        invariant 0 <= i <= |deps| && Faithful() && Grown(old(sys), sys) && old(trace) <= trace
        invariant r < |sys.runs| && sys.runs[r] == Run(old(sys.runs[r].chain), Reaping(deps[i..]))
        invariant forall n | 0 <= n < i :: deps[n] in sys.killed
      {
        OthersAct(r);
        assert deps[i..][0] == deps[i] && deps[i..][1..] == deps[i + 1..];
        ghost var killed := sys.killed;
        Record(ReapOne(r));
        assert sys.killed == killed + [deps[i]];
        i := i + 1;
      }
      OthersAct(r);
      Record(ReapEnds(r));
    }

    method EnterRun(port: int, chain: seq<ChainCmd>) returns (r: nat)
      requires Faithful()
      modifies this, job
      ensures Faithful() && r == |old(sys).runs| < |sys.runs| && sys.runs[r] == Run(chain, AtChain(0))
      ensures Grown(old(sys), sys) && old(trace) <= trace && old(sys.abandoned + job.depCmds) <= sys.abandoned
      ensures old(trace) + [Begin(port, chain)] <= trace
    {
      hide Valid, Exec;
      r := |sys.runs|;
      job.Begin(port);
      Record(Begin(port, chain));
      OthersAct(r);
      job.Set(Building, "");
      Record(MarkBuilding(r));
    }

    method RecordError(r: nat)
      requires Faithful() && r < |sys.runs| && sys.runs[r].pc.Failing?
      modifies this, job
      ensures Faithful() && r < |sys.runs| && sys.runs[r] == Run(old(sys.runs[r].chain), Over(false))
      ensures trace != [] && trace[|trace| - 1] == RecordFailure(r)
      ensures Grown(old(sys), sys) && old(trace) <= trace
    {
      hide Valid, Exec;
      OthersAct(r);
      var msg := sys.runs[r].pc.msg;
      job.Set(Error, msg);
      Record(RecordFailure(r));
    }

    method EndRun(r: nat)
      requires Faithful() && r < |sys.runs| && sys.runs[r].pc.Waiting?
      modifies this, job
      ensures Faithful() && r < |sys.runs| && sys.runs[r] == Run(old(sys.runs[r].chain), Over(true))
      ensures Grown(old(sys), sys) && old(trace) <= trace
    {
      hide Valid, Exec, Apply, Enabled, Ready;
      var exit := AwaitExit(r);
      var deps := FinishSection(r, exit);
      ReapAll(r, deps);
    }

    /**
      One run, begun whenever it may be, with anybody at work on the same job. The port it is given is
      the port that is shown until somebody else writes another one; a failure on its way is what the
      job says at the end. What it found in `depCmds` when it began is orphaned and runs on. When it
      is over, what it found at its end is killed, and every other dependency that still runs is in
      `depCmds`, with a Stop or with another run, or orphaned by a run that was begun over it.
    */
    method RunLong(port: int, chain: seq<ChainCmd>) returns (r: nat, completed: bool, mine: seq<Cmd>)
      requires Faithful()
      modifies this, job
      ensures Faithful() && r == |old(sys).runs| < |sys.runs| && sys.runs[r] == Run(chain, Over(completed))
      ensures Grown(old(sys), sys) && AllAccountedFor()
      ensures old(trace) + [Begin(port, chain)] <= trace
      ensures PortLeftAlone(trace[|old(trace)| + 1..]) ==> ShowsPort(job.View(), port)
      ensures !completed ==> job.status == Error && job.err == FailureOf(trace, r)
      ensures old(sys.abandoned + job.depCmds) <= sys.abandoned
      ensures forall c <- old(job.depCmds) :: c in sys.abandoned && Alive(sys, c)
      ensures forall c <- mine :: c in sys.started
    {
      hide Valid, Exec, Apply, Enabled, Ready, Held, Alive, AllAccountedFor, FailureOf, ShowsPort, PortLeftAlone;
      ghost var found := job.depCmds;
      ghost var dropped := sys.abandoned + found;
      r := EnterRun(port, chain);
      completed, mine := RunThrough(r);
      AllAccounted();
      Dropped(found, dropped);
      PortSaid(old(trace), port, chain);
    }

    // From the chain to the end.
    method RunThrough(r: nat) returns (completed: bool, mine: seq<Cmd>)
      requires Faithful() && r < |sys.runs| && sys.runs[r].pc == AtChain(0)
      modifies this, job
      ensures Faithful() && r < |sys.runs| && sys.runs[r] == Run(old(sys.runs[r].chain), Over(completed))
      ensures Grown(old(sys), sys) && old(trace) <= trace
      ensures !completed ==> job.status == Error && job.err == FailureOf(trace, r)
      ensures forall c <- mine :: c in sys.started
    {
      hide Valid, Exec, Apply, Enabled, Ready, FailureOf;
      var failed, refused;
      failed, mine, refused := StartChain(r);
      if !failed {
        OthersAct(r);
        failed := StartFinalProcess(r);
      }
      completed := !failed;
      if failed {
        RecordError(r);
        FailureSaid(r);
      } else {
        EndRun(r);
      }
    }

    lemma FailureSaid(r: nat)
      requires Faithful() && trace != [] && trace[|trace| - 1] == RecordFailure(r)
      ensures job.status == Error && job.err == FailureOf(trace, r)
    {
      hide Valid, Exec;
      RecordIs(trace);
    }

    lemma PortSaid(before: seq<Step>, port: int, chain: seq<ChainCmd>)
      requires Faithful() && before + [Begin(port, chain)] <= trace
      ensures PortLeftAlone(trace[|before| + 1..]) ==> ShowsPort(job.View(), port)
    {
      hide Valid, Exec, PortLeftAlone, ShowsPort;
      var after := trace[|before| + 1..];
      assert trace == before + [Begin(port, chain)] + after;
      if PortLeftAlone(after) {
        RunsPort(before, port, chain, after);
      }
    }

    lemma Dropped(found: seq<Cmd>, dropped: seq<Cmd>)
      requires Faithful() && dropped <= sys.abandoned && forall c <- found :: c in dropped
      ensures forall c <- found :: c in sys.abandoned && Alive(sys, c)
    {
      hide Alive;
      AllAccounted();
    }

    // Whatever everyone else does while Stop number `k` is between two of its steps.
    method OthersActOnStop(k: nat)
      requires Faithful() && k < |sys.stoppers|
      modifies this, job
      ensures Faithful() && SameStop(k, old(sys), sys)
    {
      hide Valid, Exec, Apply, Enabled;
      var n: nat := *;
      while n > 0
        invariant Faithful() && SameStop(k, old(sys), sys)
      {
        var step: Step := *;
        if !StepOfStop(step, k) && Enabled(sys, step) {
          OtherStepsKeepStop(k, sys, step);
          Perform(step);
        }
        n := n - 1;
      }
    }

    // The dependencies a Stop took are killed one by one.
    method KillDeps(k: nat, deps: seq<Cmd>)
      requires Faithful() && k < |sys.stoppers| && sys.stoppers[k] == KillingDeps(deps)
      modifies this, job
      ensures Faithful() && k < |sys.stoppers| && sys.stoppers[k] == Returned
      ensures forall c <- deps :: c in sys.killed
    {
      hide Valid, Exec;
      var i := 0;
      while i < |deps|
        invariant 0 <= i <= |deps| && Faithful()
        invariant k < |sys.stoppers| && sys.stoppers[k] == KillingDeps(deps[i..])
        invariant forall n | 0 <= n < i :: deps[n] in sys.killed
      {
        OthersActOnStop(k);
        assert deps[i..][0] == deps[i] && deps[i..][1..] == deps[i + 1..];
        ghost var killed := sys.killed;
        Record(StopKills(k));
        assert sys.killed == killed + [deps[i]];
        i := i + 1;
      }
      OthersActOnStop(k);
      Record(StopKills(k));
    }

    // The critical section of Stop number `k`.
    method StopSectionOf(k: nat) returns (taken: Taken)
      requires Faithful() && k < |sys.stoppers| && sys.stoppers[k] == AtSection
      modifies this, job
      ensures Faithful() && k < |sys.stoppers| && sys.stoppers[k] == AfterSection(taken)
      ensures (job.View(), taken) == StopSection(old(job.View()))
    {
      hide Valid, Exec;
      taken := job.Stop();
      Record(StopLocks(k));
    }

    /** One Stop call, with everyone else at work; `taken` is what its critical section took. */
    method Stop() returns (k: nat, taken: Taken)
      requires Faithful()
      modifies this, job
      ensures Faithful() && k == |old(sys).stoppers| < |sys.stoppers| && sys.stoppers[k] == Returned
      ensures taken.TakeDeps? ==> forall c <- taken.deps :: c in sys.killed
    {
      hide Valid, Exec;
      k := |sys.stoppers|;
      Record(StopCalled);
      OthersActOnStop(k);
      taken := StopSectionOf(k);
      if taken.TakeDeps? {
        KillDeps(k, taken.deps);
      } else if !taken.TakeNothing? {
        OthersActOnStop(k);
        var error: Option<string> := *;
        Perform(if taken.TakeCmd? then StopKills(k)
                else if error.Some? then TomcatStopFails(k, error.value) else TomcatStopped(k));
      }
    }
  }

  function Services(chain: seq<ChainCmd>): nat {
    if chain == [] then 0
    else Services(chain[..|chain| - 1]) + (if chain[|chain| - 1].Service? then 1 else 0)
  }

  lemma OneMoreCmd(chain: seq<ChainCmd>, i: nat)
    requires i < |chain|
    ensures Services(chain[..i + 1]) == Services(chain[..i]) + (if chain[i].Service? then 1 else 0)
  {
    assert chain[..i + 1][..i] == chain[..i];
  }
}
