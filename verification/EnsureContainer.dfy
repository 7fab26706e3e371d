/**
  `ensureDockerContainer` as the program it is: docker commands one after another, a switch over
  what they print, and a loop that polls. Between any two commands anything may happen to the
  container. The method is proved to take only steps of the machine in Containers, so everything
  proved there about every behaviour holds of every sequence of its calls.
*/
module EnsureContainer {
  import opened Containers
  import opened Wrappers

  // `later` continues `earlier` without beginning another call.
  ghost predicate Continues(earlier: seq<Step>, later: seq<Step>) {
    earlier <= later && forall k | |earlier| <= k < |later| :: !later[k].Call?
  }

  class Docker {
    var world: World
    ghost var trace: seq<Step>

    ghost predicate Faithful()
      reads this
    {
      Valid(Init, trace) && world == Exec(Init, trace)
    }

    constructor ()
      ensures Faithful() && world == Init && trace == []
    {
      world, trace := Init, [];
    }

    method Take(step: Step)
      requires Faithful() && Enabled(world, step)
      modifies this
      ensures Faithful() && world == Apply(old(world), step) && trace == old(trace) + [step]
    {
      hide Valid, Exec, Apply, Enabled;
      ghost var longer, w := Then(trace, step);
      world := Apply(world, step);
      trace := longer;
    }

    // Whatever others do to the container while the launcher is between two commands.
    method Interfere()
      requires Faithful()
      modifies this
      ensures Faithful() && Continues(old(trace), trace)
      ensures world == old(world).(container := world.container, startedSince := world.startedSince, misjudged := world.misjudged)
    {
      hide Valid, Exec;
      var events: nat := *;
      while events > 0
        invariant Faithful() && Continues(old(trace), trace)
        invariant world == old(world).(container := world.container, startedSince := world.startedSince, misjudged := world.misjudged)
      {
        var code: int := *;
        var kind: int := *;
        var step := if kind == 0 then Stops(code) else if kind == 1 then StartedByOthers else RemovedByOthers;
        if Enabled(world, step) {
          Take(step);
        }
        events := events - 1;
      }
    }

    // docker inspect -f {{.State.Running}}
    method InspectRunningState() returns (out: string)
      requires Faithful() && world.phase == DockerUp
      modifies this
      ensures Faithful() && Continues(old(trace), trace) && world.spec == old(world).spec
      ensures world.phase == if out == "true" then Polling else NotRunning
    {
      hide Valid, Exec;
      Interfere();
      var blank: bool := *;
      out := RunningText(world.container, blank);
      Take(InspectRunning(blank));
    }

    // docker inspect -f {{.State.Status}}
    method InspectStatusState() returns (out: string)
      requires Faithful() && world.phase == PortFree
      modifies this
      ensures Faithful() && Continues(old(trace), trace) && world.spec == old(world).spec
      ensures world.phase ==
        if out == "" then Creating else if out == "created" then Removing
        else if world.spec.recreateOnCrash then WasStarted else Restarting
    {
      hide Valid, Exec;
      Interfere();
      var blank: bool := *;
      out := StatusText(world.container, blank);
      Take(InspectStatus(blank));
    }

    // docker inspect -f {{.State.ExitCode}}, compared with "0"
    method InspectExitState() returns (crashed: bool)
      requires Faithful() && world.phase == WasStarted
      modifies this
      ensures Faithful() && Continues(old(trace), trace) && world.spec == old(world).spec
      ensures world.phase == if crashed then Removing else Restarting
    {
      hide Valid, Exec;
      Interfere();
      var blank: bool := *;
      crashed := ReadsAsCrash(world.container, blank);
      Take(InspectExitCode(blank));
    }

    // docker rm -f -v; its result is ignored
    method RemoveContainer()
      requires Faithful() && world.phase == Removing
      modifies this
      ensures Faithful() && Continues(old(trace), trace) && world.spec == old(world).spec
      ensures world.phase == Creating
    {
      hide Valid, Exec;
      Interfere();
      var ok: bool := *;
      Take(Remove(ok));
    }

    // docker run
    method CreateFresh() returns (ok: bool)
      requires Faithful() && world.phase == Creating
      modifies this
      ensures Faithful() && Continues(old(trace), trace) && world.spec == old(world).spec
      ensures world.phase == if ok then Polling else Returned(CreateFailed)
    {
      hide Valid, Exec;
      Interfere();
      var end: RunEnd := *;
      Take(Run(end));
      ok := world.phase == Polling;
    }

    // docker start
    method Restart() returns (ok: bool)
      requires Faithful() && world.phase == Restarting
      modifies this
      ensures Faithful() && Continues(old(trace), trace) && world.spec == old(world).spec
      ensures world.phase == if ok then Polling else Returned(StartFailed)
    {
      hide Valid, Exec;
      Interfere();
      var done: bool := *;
      Take(Start(done));
      ok := world.phase == Polling;
    }

    method ReadyProbe() returns (ready: bool)
      requires Faithful() && world.phase == Polling
      modifies this
      ensures Faithful() && Continues(old(trace), trace) && world.spec == old(world).spec
      ensures world.phase == if ready then Returned(Ready) else Polling
    {
      hide Valid, Exec;
      Interfere();
      ready := *;
      Take(Poll(ready));
    }

    /**
      One call; the clock allows `rounds` rounds of polling. The whole call is a behaviour of the
      machine that begins with `Call(spec)`.
    */
    method Ensure(spec: Spec, rounds: nat) returns (outcome: Outcome)
      requires Faithful() && world.phase.Returned?
      modifies this
      ensures Faithful() && Continues(old(trace) + [Call(spec)], trace)
      ensures world.phase == Returned(outcome) && world.spec == spec
      ensures outcome in {PortTaken, NotInstalled, DaemonDown} ==> world.mutations == 0
      ensures outcome == Ready ==> world.probes != [] && world.probes == Refusals(|world.probes| - 1) + [true]
      ensures world.mutations <= 2
      ensures Says(world, trace[|old(trace)| + 1..])
      ensures (forall step <- trace[|old(trace)| + 1..] :: Smooth(step)) ==>
        && outcome in {Ready, NotReady} && world.container.Present? && world.container.status.Running?
        && world.container.id ==
             if old(world.container).Absent? || old(world.container).status.Created?
                || (spec.recreateOnCrash && old(world.container).status.Exited? && old(world.container).status.code != 0)
             then old(world).created else old(world.container).id
    {
      hide Valid, Exec, Says, Smooth;
      outcome := Attempt(spec, rounds);
      ResultsMean(trace);
      Whole(old(trace), spec);
    }

    // What is proved about a whole call, of the one that has just returned.
    lemma Whole(before: seq<Step>, spec: Spec)
      requires Faithful() && Valid(Init, before) && Exec(Init, before).phase.Returned?
      requires Continues(before + [Call(spec)], trace) && world.phase.Returned?
      ensures var found, created, after := Exec(Init, before).container, Exec(Init, before).created, trace[|before| + 1..];
        && Says(world, after)
        && ((forall step <- after :: Smooth(step)) ==>
              && world.phase.outcome in {Ready, NotReady} && world.container.Present? && world.container.status.Running?
              && world.container.id ==
                   if found.Absent? || found.status.Created?
                      || (spec.recreateOnCrash && found.status.Exited? && found.status.code != 0)
                   then created else found.id)
    {
      hide Valid, Exec, Says, Smooth, Apply, Enabled;
      var after := trace[|before| + 1..];
      var s := Exec(Init, before);
      assert trace == before + [Call(spec)] + after;
      OneCall(before, spec, after);
      assert forall k | 0 <= k < |after| :: after[k] == trace[|before| + 1 + k];
      ResultNamesFailure(s, spec, after);
      if forall step <- after :: Smooth(step) {
        SmoothCallReplacesIff(before, spec, after);
        SmoothCallRecovers(before, spec, after);
      }
    }

    lemma OneCall(before: seq<Step>, spec: Spec, after: seq<Step>)
      requires Valid(Init, before + [Call(spec)] + after) && Valid(Init, before) && Exec(Init, before).phase.Returned?
      ensures var s := Exec(Init, before);
        && Enabled(s, Call(spec)) && Valid(Apply(s, Call(spec)), after)
        && Exec(Init, before + [Call(spec)] + after) == Exec(Apply(s, Call(spec)), after)
    {
      hide Apply;
      var s := Exec(Init, before);
      Split(Init, before + [Call(spec)], after);
      ghost var longer, w := Then(before, Call(spec));
    }

    method Attempt(spec: Spec, rounds: nat) returns (outcome: Outcome)
      requires Faithful() && world.phase.Returned?
      modifies this
      ensures Faithful() && Continues(old(trace) + [Call(spec)], trace)
      ensures world.phase == Returned(outcome) && world.spec == spec
    {
      hide Valid, Exec;
      Take(Call(spec));
      var installed: bool := *;
      Take(FindDocker(installed));
      if !installed {
        return NotInstalled;
      }
      var up: bool := *;
      Take(DockerInfo(up));
      if !up {
        return DaemonDown;
      }
      var running := InspectRunningState();
      if running != "true" {
        var listening: bool := *;
        Take(ProbePort(listening));
        if spec.hostPort > 0 && listening {
          return PortTaken;
        }
        var failure := BringUp(spec);
        if failure.Some? {
          return failure.value;
        }
      }
      outcome := AwaitReady(spec, rounds);
    }

    // The polling until the container is ready or the deadline has passed.
    method AwaitReady(spec: Spec, rounds: nat) returns (outcome: Outcome)
      requires Faithful() && world.phase == Polling && world.spec == spec
      modifies this
      ensures Faithful() && Continues(old(trace), trace) && world.spec == spec
      ensures world.phase == Returned(outcome)
    {
      hide Valid, Exec;
      var round := 0;
      while round < rounds
        invariant Faithful() && Continues(old(trace), trace)
        invariant world.phase == Polling && world.spec == spec
      {
        var ready := ReadyProbe();
        if ready {
          return Ready;
        }
        round := round + 1;
      }
      Take(Deadline);
      return NotReady;
    }

    // The switch over the status of a container that is not running.
    method BringUp(spec: Spec) returns (failure: Option<Outcome>)
      requires Faithful() && world.phase == PortFree && world.spec == spec
      modifies this
      ensures Faithful() && Continues(old(trace), trace) && world.spec == spec
      ensures world.phase == if failure.Some? then Returned(failure.value) else Polling
    {
      hide Valid, Exec;
      var status := InspectStatusState();
      var ok: bool;
      match status {
        case "" =>
          ok := CreateFresh();
          return if ok then None else Some(CreateFailed);
        case "created" =>
          RemoveContainer();
          ok := CreateFresh();
          return if ok then None else Some(CreateFailed);
        case _ =>
          var crashed := false;
          if spec.recreateOnCrash {
            crashed := InspectExitState();
          }
          if crashed {
            RemoveContainer();
            ok := CreateFresh();
            return if ok then None else Some(CreateFailed);
          }
          ok := Restart();
          return if ok then None else Some(StartFailed);
      }
    }
  }
}
