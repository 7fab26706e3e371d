/**
  Ensuring that a named Docker container runs.

  Each docker command the launcher issues is one step, and between any two of them the outside
  world may stop, crash, start or remove the container. An inspection may also come back empty
  although the container is there, as it does when the command itself fails. A behaviour is a
  sequence of steps over any number of calls, one call at a time; calls may use different
  specifications.
*/
module Containers {
  datatype Status = Created | Running | Exited(code: int)

  datatype Container = Absent | Present(id: nat, status: Status, everRan: bool)

  datatype Spec = Spec(recreateOnCrash: bool, hostPort: int)

  datatype Outcome =
    | Ready
    | NotInstalled
    | DaemonDown
    | PortTaken
    | CreateFailed
    | StartFailed
    | NotReady

  datatype Phase =
    | Returned(outcome: Outcome)
    | Entered
    | DockerUp
    | NotRunning
    | PortFree
    | WasStarted
    | Removing
    | Creating
    | Restarting
    | Polling

  datatype World = World(
    container: Container,
    created: nat,          // ids below this one have been used
    spec: Spec,
    phase: Phase,
    mutations: nat,        // docker rm, run and start issued by the current call
    probes: seq<bool>,     // what `ready` answered to the current call
    startedSince: bool,    // others started the container after this call inspected its status
    misjudged: bool,       // its exit code was not read although it had not failed, or others
                           // started it since, and it has not failed since then
    lostData: set<nat>,    // containers that had run and that the launcher removed
    lostClean: set<nat>)   // those among them that had not ended with a failure

  // How `docker run` ends when the name is free.
  datatype RunEnd = Up | LeftCreated | NothingLeft

  datatype Step =
    | Call(spec: Spec)
    | FindDocker(installed: bool)
    | DockerInfo(up: bool)
    | InspectRunning(blank: bool)
    | ProbePort(listening: bool)
    | InspectStatus(blank: bool)
    | InspectExitCode(blank: bool)
    | Remove(ok: bool)
    | Run(end: RunEnd)
    | Start(ok: bool)
    | Poll(ready: bool)
    | Deadline
    | Stops(code: int)
    | StartedByOthers
    | RemovedByOthers

  const SomeSpec := Spec(false, 0)
  const Init := World(Absent, 0, SomeSpec, Returned(NotReady), 0, [], false, false, {}, {})

  // What the three inspections print, blanks trimmed.
  function RunningText(c: Container, blank: bool): string {
    if blank || c.Absent? then "" else if c.status.Running? then "true" else "false"
  }

  function StatusText(c: Container, blank: bool): string {
    if blank || c.Absent? then ""
    else match c.status
      case Created => "created"
      case Running => "running"
      case Exited(_) => "exited"
  }

  // Whether the exit code reads as anything but "0"; a container that is not exited prints 0.
  predicate ReadsAsCrash(c: Container, blank: bool) {
    blank || c.Absent? || (c.status.Exited? && c.status.code != 0)
  }

  predicate RanWithoutFailure(c: Container) {
    c.Present? && c.everRan && !(c.status.Exited? && c.status.code != 0)
  }

  predicate Enabled(w: World, step: Step) {
    match step
    case Call(_) => w.phase.Returned?
    case FindDocker(_) => w.phase.Entered?
    case DockerInfo(_) => w.phase.Entered?
    case InspectRunning(_) => w.phase.DockerUp?
    case ProbePort(_) => w.phase.NotRunning?
    case InspectStatus(_) => w.phase.PortFree?
    case InspectExitCode(_) => w.phase.WasStarted?
    case Remove(_) => w.phase.Removing?
    case Run(_) => w.phase.Creating?
    case Start(_) => w.phase.Restarting?
    case Poll(_) => w.phase.Polling?
    case Deadline => w.phase.Polling?
    case Stops(_) => w.container.Present? && w.container.status.Running?
    case StartedByOthers => w.container.Present?
    case RemovedByOthers => true
  }

  function Apply(w: World, step: Step): World
    requires Enabled(w, step)
  {
    match step
    case Call(spec) => w.(spec := spec, phase := Entered, mutations := 0, probes := [])
    case FindDocker(installed) => if installed then w else w.(phase := Returned(NotInstalled))
    case DockerInfo(up) => w.(phase := if up then DockerUp else Returned(DaemonDown))
    case InspectRunning(blank) =>
      w.(phase := if RunningText(w.container, blank) == "true" then Polling else NotRunning)
    case ProbePort(listening) =>
      w.(phase := if w.spec.hostPort > 0 && listening then Returned(PortTaken) else PortFree)
    case InspectStatus(blank) =>
      var status := StatusText(w.container, blank);
      w.(startedSince := false, misjudged := false,
         phase := if status == "" then Creating
                  else if status == "created" then Removing
                  else if w.spec.recreateOnCrash then WasStarted
                  else Restarting)
    case InspectExitCode(blank) =>
      w.(misjudged := blank && RanWithoutFailure(w.container),
         phase := if ReadsAsCrash(w.container, blank) then Removing else Restarting)
    case Remove(ok) => Removed(w, ok).(phase := Creating, mutations := w.mutations + 1)
    case Run(end) => RunNew(w, end).(mutations := w.mutations + 1)
    case Start(ok) => StartOld(w, ok).(mutations := w.mutations + 1)
    case Poll(ready) =>
      w.(probes := w.probes + [ready], phase := if ready then Returned(Ready) else Polling)
    case Deadline => w.(phase := Returned(NotReady))
    case Stops(code) =>
      w.(container := w.container.(status := Exited(code)), misjudged := w.misjudged && code == 0)
    case StartedByOthers =>
      w.(container := w.container.(status := Running, everRan := true), startedSince := true, misjudged := true)
    case RemovedByOthers => w.(container := Absent, startedSince := false, misjudged := false)
  }

  // docker rm -f -v
  function Removed(w: World, ok: bool): World {
    if !ok || w.container.Absent? then w
    else
      var c := w.container;
      w.(container := Absent,
         lostData := if c.everRan then w.lostData + {c.id} else w.lostData,
         lostClean := if RanWithoutFailure(c) then w.lostClean + {c.id} else w.lostClean)
  }

  // docker run -d --name: refused while the name is in use.
  function RunNew(w: World, end: RunEnd): World {
    if w.container.Present? then w.(phase := Returned(CreateFailed))
    else match end
      case Up => w.(container := Present(w.created, Running, true), created := w.created + 1, phase := Polling)
      case LeftCreated =>
        w.(container := Present(w.created, Created, false), created := w.created + 1,
           phase := Returned(CreateFailed))
      case NothingLeft => w.(phase := Returned(CreateFailed))
  }

  function StartOld(w: World, ok: bool): World {
    if !ok || w.container.Absent? then w.(phase := Returned(StartFailed))
    else w.(container := w.container.(status := Running, everRan := true), phase := Polling)
  }

  predicate Valid(w: World, steps: seq<Step>)
    decreases |steps|
  {
    steps == [] || (Enabled(w, steps[0]) && Valid(Apply(w, steps[0]), steps[1..]))
  }

  function Exec(w: World, steps: seq<Step>): World
    requires Valid(w, steps)
    decreases |steps|
  {
    if steps == [] then w else Exec(Apply(w, steps[0]), steps[1..])
  }

  lemma {:induction false} Extend(w: World, steps: seq<Step>, more: seq<Step>)
    requires Valid(w, steps) && Valid(Exec(w, steps), more)
    ensures Valid(w, steps + more) && Exec(w, steps + more) == Exec(Exec(w, steps), more)
    decreases |steps|
  {
    if steps == [] {
      assert steps + more == more;
    } else {
      assert (steps + more)[1..] == steps[1..] + more;
      Extend(Apply(w, steps[0]), steps[1..], more);
    }
  }

  lemma {:induction false} Split(w: World, steps: seq<Step>, more: seq<Step>)
    requires Valid(w, steps + more)
    ensures Valid(w, steps) && Valid(Exec(w, steps), more) && Exec(w, steps + more) == Exec(Exec(w, steps), more)
    decreases |steps|
  {
    hide Enabled, Apply;
    if steps == [] {
      assert steps + more == more;
    } else {
      assert (steps + more)[1..] == steps[1..] + more;
      Split(Apply(w, steps[0]), steps[1..], more);
    }
  }

  // ---------------------------------------------------------------- what every run keeps

  // The phases of a call in which no docker command has changed anything yet.
  predicate BeforeMutation(p: Phase) {
    match p
    case Entered | DockerUp | NotRunning | PortFree | WasStarted | Removing | Restarting => true
    case Returned(o) => o.PortTaken? || o.NotInstalled? || o.DaemonDown?
    case Creating | Polling => false
  }

  predicate ContainerInv(w: World) {
    && (forall id <- w.lostData :: id < w.created)
    && w.lostClean <= w.lostData
    && (w.container.Present? ==>
          && w.container.id < w.created
          && w.container.id !in w.lostData
          && (w.container.everRan <==> !w.container.status.Created?))
  }

  predicate CallInv(w: World) {
    && (BeforeMutation(w.phase) ==> w.mutations == 0 && w.probes == [])
    && w.mutations <= (if w.phase.Creating? then 1 else 2)
    && (w.phase.WasStarted? ==> w.spec.recreateOnCrash)
    && (w.phase.Creating? ==> w.probes == [])
    && (w.phase.Polling? ==> w.probes == Refusals(|w.probes|))
    && (w.phase == Returned(Ready) ==> w.probes != [] && w.probes == Refusals(|w.probes| - 1) + [true])
  }

  function Refusals(k: nat): seq<bool> {
    seq(k, _ => false)
  }

  // A call that may not recreate a crashed container removes only one that never ran, unless
  // others have started it meanwhile.
  predicate RemovalInv(w: World) {
    && (w.phase.Removing? && !w.spec.recreateOnCrash ==>
          (w.container.Present? && w.container.everRan <==> w.startedSince))
    && (w.phase.Removing? ==> (RanWithoutFailure(w.container) <==> w.misjudged))
  }

  predicate Inv(w: World) {
    ContainerInv(w) && CallInv(w) && RemovalInv(w)
  }

  lemma ContainerStep(w: World, step: Step)
    requires ContainerInv(w) && Enabled(w, step)
    ensures ContainerInv(Apply(w, step))
  {
  }

  lemma CallStep(w: World, step: Step)
    requires CallInv(w) && Enabled(w, step)
    ensures CallInv(Apply(w, step))
  {
    if step.Poll? {
      assert w.probes + [false] == Refusals(|w.probes| + 1);
    }
  }

  lemma RemovalStep(w: World, step: Step)
    requires Inv(w) && Enabled(w, step)
    ensures RemovalInv(Apply(w, step))
  {
  }

  lemma StepKeepsInv(w: World, step: Step)
    requires Inv(w) && Enabled(w, step)
    ensures Inv(Apply(w, step))
  {
    hide ContainerInv, CallInv, RemovalInv, Apply, Enabled;
    ContainerStep(w, step);
    CallStep(w, step);
    RemovalStep(w, step);
  }

  /** Every state of every run keeps the invariant. */
  lemma {:induction false} InvAlways(w: World, steps: seq<Step>)
    requires Inv(w) && Valid(w, steps)
    ensures Inv(Exec(w, steps))
    decreases |steps|
  {
    hide Inv, Enabled, Apply;
    if steps == [] {
    } else {
      StepKeepsInv(w, steps[0]);
      InvAlways(Apply(w, steps[0]), steps[1..]);
    }
  }

  lemma InitHolds()
    ensures Inv(Init)
  {
  }

  // ---------------------------------------------------------------- data

  /**
    A removal by a call that must not wipe data destroys the data of a container that had run
    exactly when others started that container after the call had inspected it.
  */
  lemma RemovalLosesDataIff(steps: seq<Step>)
    requires Valid(Init, steps)
    ensures var w := Exec(Init, steps);
      w.phase.Removing? && !w.spec.recreateOnCrash ==>
        (Apply(w, Remove(true)).lostData != w.lostData <==> w.startedSince)
  {
    InitHolds();
    InvAlways(Init, steps);
  }

  predicate NeverRecreates(steps: seq<Step>) {
    forall step <- steps :: step.Call? ==> !step.spec.recreateOnCrash
  }

  // No removal succeeds after others have started the container since its inspection.
  predicate NoneStartedSince(w: World, steps: seq<Step>)
    requires Valid(w, steps)
    decreases |steps|
  {
    steps == []
    || (!(steps[0] == Remove(true) && w.startedSince) && NoneStartedSince(Apply(w, steps[0]), steps[1..]))
  }

  /**
    Data preservation: over any number of calls that must not wipe data, with empty inspections,
    failing commands, stops, crashes, starts and removals by others anywhere, the launcher removes
    no container that has ever run, if and only if none is started by others between the inspection
    that condemned it and its removal.
  */
  lemma {:induction false} DataIsKeptIff(w: World, steps: seq<Step>)
    requires Inv(w) && !w.spec.recreateOnCrash && Valid(w, steps) && NeverRecreates(steps)
    ensures Exec(w, steps).lostData == w.lostData <==> NoneStartedSince(w, steps)
    ensures w.lostData <= Exec(w, steps).lostData
    decreases |steps|
  {
    hide Inv, Enabled, Apply;
    if steps == [] {
    } else {
      assert steps[0] in steps;
      assert NeverRecreates(steps[1..]) by { assert forall step <- steps[1..] :: step in steps; }
      OneStepKeepsData(w, steps[0]);
      DataIsKeptIff(Apply(w, steps[0]), steps[1..]);
    }
  }

  lemma OneStepKeepsData(w: World, step: Step)
    requires Inv(w) && !w.spec.recreateOnCrash && Enabled(w, step)
    requires step.Call? ==> !step.spec.recreateOnCrash
    ensures var v := Apply(w, step);
      && Inv(v) && !v.spec.recreateOnCrash && w.lostData <= v.lostData
      && (v.lostData == w.lostData <==> !(step == Remove(true) && w.startedSince))
  {
    StepKeepsInv(w, step);
  }

  // A behaviour so far, one step longer.
  lemma Then(steps: seq<Step>, step: Step) returns (longer: seq<Step>, w: World)
    requires Valid(Init, steps) && Enabled(Exec(Init, steps), step)
    ensures longer == steps + [step] && Valid(Init, longer)
    ensures w == Exec(Init, longer) == Apply(Exec(Init, steps), step)
  {
    var e := Exec(Init, steps);
    var one := [step];
    assert Valid(Apply(e, step), one[1..]) && Exec(Apply(e, step), one[1..]) == Apply(e, step);
    assert Valid(e, one) && Exec(e, one) == Apply(e, step);
    Extend(Init, steps, one);
    longer, w := steps + one, Apply(e, step);
  }

  // A call that has got as far as the inspection of the container's status.
  lemma UpToStatus(steps: seq<Step>, spec: Spec) returns (longer: seq<Step>, w: World)
    requires Valid(Init, steps) && Exec(Init, steps).phase.Returned?
    requires var c := Exec(Init, steps).container; c.Present? ==> !c.status.Running?
    ensures Valid(Init, longer) && w == Exec(Init, longer)
    ensures w == Exec(Init, steps).(spec := spec, phase := PortFree, mutations := 0, probes := [])
    ensures forall step | step in longer && step !in steps ::
      step in {Call(spec), FindDocker(true), DockerInfo(true), InspectRunning(false), ProbePort(false)}
  {
    longer, w := Then(steps, Call(spec));
    longer, w := Then(longer, FindDocker(true));
    longer, w := Then(longer, DockerInfo(true));
    longer, w := Then(longer, InspectRunning(false));
    longer, w := Then(longer, ProbePort(false));
  }

  predicate LosesData(steps: seq<Step>) {
    Valid(Init, steps) && NeverRecreates(steps) && Exec(Init, steps).lostData != {}
  }

  /**
    Why nobody else may interfere: a container left over from a failed `docker run` is started by
    hand just before the launcher removes it.
  */
  lemma StartedByHandIsLost()
    ensures exists steps :: LosesData(steps)
  {
    hide Valid, Exec;
    NothingYet();
    var steps, w := UpToStatus([], SomeSpec);
    steps, w := Then(steps, InspectStatus(false));
    steps, w := Then(steps, Run(LeftCreated));
    steps, w := UpToStatus(steps, SomeSpec);
    steps, w := Then(steps, InspectStatus(false));
    steps, w := Then(steps, StartedByOthers);
    steps, w := Then(steps, Remove(true));
    assert w.lostData == {0};
    assert LosesData(steps);
  }

  lemma NothingYet()
    ensures Valid(Init, []) && Exec(Init, []) == Init
  {
  }

  // ---------------------------------------------------------------- containers that may be recreated

  /**
    A removal replaces a container that had run and had not failed exactly when the container was
    misjudged: its exit code could not be read although it was no failure, or others started it
    since, and it did not fail afterwards.
  */
  lemma RemovalLosesCleanIff(steps: seq<Step>)
    requires Valid(Init, steps)
    ensures var w := Exec(Init, steps);
      w.phase.Removing? ==> (Apply(w, Remove(true)).lostClean != w.lostClean <==> w.misjudged)
  {
    InitHolds();
    InvAlways(Init, steps);
  }

  /**
    The inspection that decides: with nobody interfering before the removal that it leads to, a
    container that had not failed is lost exactly when its exit code could not be read.
  */
  lemma BlankReadingLosesCleanIff(steps: seq<Step>, blank: bool)
    requires Valid(Init, steps) && Exec(Init, steps).phase.WasStarted?
    ensures var w := Exec(Init, steps);
      var v := Apply(w, InspectExitCode(blank));
      v.phase.Removing? ==>
        (Apply(v, Remove(true)).lostClean != w.lostClean <==> blank && RanWithoutFailure(w.container))
  {
    InitHolds();
    InvAlways(Init, steps);
  }

  // No removal succeeds of a container that was misjudged.
  predicate NoneMisjudged(w: World, steps: seq<Step>)
    requires Valid(w, steps)
    decreases |steps|
  {
    steps == []
    || (!(steps[0] == Remove(true) && w.misjudged) && NoneMisjudged(Apply(w, steps[0]), steps[1..]))
  }

  /** Over any calls with any specifications: a container is replaced only after a failure, if and only if none is misjudged. */
  lemma {:induction false} CleanStopIsKeptIff(w: World, steps: seq<Step>)
    requires Inv(w) && Valid(w, steps)
    ensures Exec(w, steps).lostClean == w.lostClean <==> NoneMisjudged(w, steps)
    ensures w.lostClean <= Exec(w, steps).lostClean
    decreases |steps|
  {
    hide Inv, Enabled, Apply;
    if steps == [] {
    } else {
      OneStepKeepsCleanStop(w, steps[0]);
      CleanStopIsKeptIff(Apply(w, steps[0]), steps[1..]);
    }
  }

  lemma OneStepKeepsCleanStop(w: World, step: Step)
    requires Inv(w) && Enabled(w, step)
    ensures var v := Apply(w, step);
      && Inv(v) && w.lostClean <= v.lostClean
      && (v.lostClean == w.lostClean <==> !(step == Remove(true) && w.misjudged))
  {
    StepKeepsInv(w, step);
  }

  predicate LosesCleanStop(steps: seq<Step>) {
    Valid(Init, steps) && Exec(Init, steps).lostClean != {}
  }

  /** An inspection that fails reads as a crash: a container stopped with exit code 0 is replaced. */
  lemma BlankExitCodeLosesCleanStop()
    ensures exists steps :: LosesCleanStop(steps)
  {
    hide Valid, Exec;
    NothingYet();
    var redis := Spec(true, 6379);
    var steps, w := UpToStatus([], redis);
    steps, w := Then(steps, InspectStatus(false));
    steps, w := Then(steps, Run(Up));
    steps, w := Then(steps, Poll(true));
    steps, w := Then(steps, Stops(0));
    steps, w := UpToStatus(steps, redis);
    steps, w := Then(steps, InspectStatus(false));
    steps, w := Then(steps, InspectExitCode(true));
    steps, w := Then(steps, Remove(true));
    assert w.lostClean == {0};
    assert LosesCleanStop(steps);
  }

  // ---------------------------------------------------------------- what a result means

  /**
    A call that reports a busy port, or no Docker, has changed nothing; a call that succeeds has
    seen `ready` answer yes, after as many refusals as it polled before; no call issues more than
    two commands that change anything.
  */
  lemma ResultsMean(steps: seq<Step>)
    requires Valid(Init, steps)
    ensures var w := Exec(Init, steps);
      && (w.phase in {Returned(PortTaken), Returned(NotInstalled), Returned(DaemonDown)} ==> w.mutations == 0)
      && (w.phase == Returned(Ready) ==> w.probes != [] && w.probes == Refusals(|w.probes| - 1) + [true])
      && w.mutations <= 2
  {
    hide Apply, Enabled;
    InitHolds();
    InvAlways(Init, steps);
  }

  // ---------------------------------------------------------------- recovery

  // A step in which nothing goes wrong and nobody interferes.
  predicate Smooth(step: Step) {
    match step
    case Call(_) | Stops(_) | StartedByOthers | RemovedByOthers => false
    case FindDocker(ok) => ok
    case DockerInfo(ok) => ok
    case InspectRunning(blank) => !blank
    case ProbePort(listening) => !listening
    case InspectStatus(blank) => !blank
    case InspectExitCode(blank) => !blank
    case Remove(ok) => ok
    case Run(end) => end == Up
    case Start(ok) => ok
    case Poll(_) | Deadline => true
  }

  predicate Recovering(w: World) {
    match w.phase
    case Entered | DockerUp => true
    case NotRunning | PortFree => w.container.Present? ==> !w.container.status.Running?
    case Removing => w.container.Present? && !w.container.status.Running?
    case Creating => w.container.Absent?
    case WasStarted | Restarting => w.container.Present? && w.container.everRan && !w.container.status.Running?
    case Polling => w.container.Present? && w.container.status.Running?
    case Returned(o) => (o.Ready? || o.NotReady?) && w.container.Present? && w.container.status.Running?
  }

  /**
    Recovery: whatever earlier calls and crashes left behind, a call in which nothing goes wrong
    ends with the container running, and reports nothing but whether it became ready in time.
  */
  lemma {:induction false} SmoothCallRecovers(before: seq<Step>, spec: Spec, steps: seq<Step>)
    requires Valid(Init, before) && Exec(Init, before).phase.Returned?
    requires Valid(Apply(Exec(Init, before), Call(spec)), steps) && forall step <- steps :: Smooth(step)
    ensures var w := Exec(Apply(Exec(Init, before), Call(spec)), steps);
      w.phase.Returned? ==>
        w.phase.outcome in {Ready, NotReady} && w.container.Present? && w.container.status.Running?
  {
    hide Apply, Enabled, Inv, Valid, Exec;
    InitHolds();
    InvAlways(Init, before);
    var w := Exec(Init, before);
    CallAllowed(w, spec);
    CallStarts(w, spec);
    StaysRecovering(Apply(w, Call(spec)), steps);
  }

  lemma CallAllowed(w: World, spec: Spec)
    ensures Enabled(w, Call(spec)) <==> w.phase.Returned?
  {
  }

  lemma CallStarts(w: World, spec: Spec)
    requires Inv(w) && Enabled(w, Call(spec))
    ensures var v := Apply(w, Call(spec)); Inv(v) && Recovering(v)
  {
    StepKeepsInv(w, Call(spec));
  }

  lemma SmoothStep(w: World, step: Step)
    requires Inv(w) && Recovering(w) && Enabled(w, step) && Smooth(step)
    ensures Inv(Apply(w, step)) && Recovering(Apply(w, step))
  {
    StepKeepsInv(w, step);
  }

  lemma {:induction false} StaysRecovering(w: World, steps: seq<Step>)
    requires Inv(w) && Recovering(w) && Valid(w, steps) && forall step <- steps :: Smooth(step)
    ensures Recovering(Exec(w, steps))
    decreases |steps|
  {
    hide Apply, Enabled, Inv, Recovering, Smooth;
    if steps == [] {
    } else {
      SmoothStep(w, steps[0]);
      StaysRecovering(Apply(w, steps[0]), steps[1..]);
    }
  }

  // ---------------------------------------------------------------- which container is replaced

  // The container found is not used again: there is none, it never ran, or it crashed and may be recreated.
  predicate Unusable(c: Container, spec: Spec) {
    c.Absent? || c.status.Created? || (spec.recreateOnCrash && c.status.Exited? && c.status.code != 0)
  }

  // Where a smooth call is that found the container `c` when `n` containers had been created.
  predicate Tracks(c: Container, n: nat, w: World) {
    match w.phase
    case Entered | DockerUp => w.container == c && w.created == n
    case NotRunning | PortFree => w.container == c && w.created == n && (c.Present? ==> !c.status.Running?)
    case WasStarted | Restarting =>
      && w.container == c && w.created == n && c.Present? && c.status.Exited?
      && (w.phase.WasStarted? ==> w.spec.recreateOnCrash)
      && (w.phase.Restarting? ==> !Unusable(c, w.spec))
    case Removing => w.container == c && w.created == n && Unusable(c, w.spec)
    case Creating => w.container.Absent? && w.created == n && Unusable(c, w.spec)
    case Polling => Ended(c, n, w)
    case Returned(_) => Ended(c, n, w)
  }

  predicate Ended(c: Container, n: nat, w: World) {
    if Unusable(c, w.spec) then w.container == Present(n, Running, true) && w.created == n + 1
    else w.container == Present(c.id, Running, true) && w.created == n
  }

  lemma SmoothStepTracks(c: Container, n: nat, w: World, step: Step)
    requires Inv(w) && Recovering(w) && Enabled(w, step) && Smooth(step) && Tracks(c, n, w)
    requires c.Present? ==> (c.everRan <==> !c.status.Created?)
    ensures Tracks(c, n, Apply(w, step)) && Apply(w, step).spec == w.spec
  {
  }

  lemma {:induction false} SmoothCallTracks(c: Container, n: nat, w: World, steps: seq<Step>)
    requires Inv(w) && Recovering(w) && Tracks(c, n, w) && Valid(w, steps) && forall step <- steps :: Smooth(step)
    requires c.Present? ==> (c.everRan <==> !c.status.Created?)
    ensures Tracks(c, n, Exec(w, steps)) && Exec(w, steps).spec == w.spec
    decreases |steps|
  {
    hide Apply, Enabled, Inv, Recovering, Smooth, Tracks;
    if steps == [] {
    } else {
      SmoothStep(w, steps[0]);
      SmoothStepTracks(c, n, w, steps[0]);
      SmoothCallTracks(c, n, Apply(w, steps[0]), steps[1..]);
    }
  }

  /**
    A call in which nothing goes wrong leaves a container that did not exist before if and only if it
    found none, one that never ran, or, if it may recreate, one that exited with a failure; otherwise
    it leaves the one it found, with its data.
  */
  lemma SmoothCallReplacesIff(before: seq<Step>, spec: Spec, steps: seq<Step>)
    requires Valid(Init, before) && Exec(Init, before).phase.Returned?
    requires Valid(Apply(Exec(Init, before), Call(spec)), steps) && forall step <- steps :: Smooth(step)
    ensures var s := Exec(Init, before);
      var found, e := s.container, Exec(Apply(s, Call(spec)), steps);
      e.phase.Returned? ==>
        && e.container.Present? && (found.Present? ==> found.id < s.created)
        && e.container.id ==
             if found.Absent? || found.status.Created?
                || (spec.recreateOnCrash && found.status.Exited? && found.status.code != 0)
             then s.created else found.id
  {
    hide Apply, Enabled, Inv, Valid, Exec, Smooth, Recovering;
    InitHolds();
    InvAlways(Init, before);
    var s := Exec(Init, before);
    CallAllowed(s, spec);
    CallStarts(s, spec);
    CallTracks(s, spec);
    SmoothCallTracks(s.container, s.created, Apply(s, Call(spec)), steps);
  }

  lemma CallTracks(w: World, spec: Spec)
    requires Inv(w) && Enabled(w, Call(spec))
    ensures var v := Apply(w, Call(spec)); Tracks(w.container, w.created, v) && v.spec == spec
    ensures w.container.Present? ==> w.container.id < w.created && (w.container.everRan <==> !w.container.status.Created?)
  {
  }

  /** An exit code that can be read leads to a removal exactly for a container that is gone or that failed. */
  lemma ReadExitCodeRemovesIff(steps: seq<Step>)
    requires Valid(Init, steps) && Exec(Init, steps).phase.WasStarted?
    ensures var w := Exec(Init, steps);
      var v := Apply(w, InspectExitCode(false));
      && (v.phase.Removing? <==> w.container.Absent? || (w.container.status.Exited? && w.container.status.code != 0))
      && (v.phase.Restarting? <==> !v.phase.Removing?)
  {
  }

  // ---------------------------------------------------------------- which result is reported

  // What a call has reported, or not yet, after these steps of it and of others: the probes,
  predicate SaysProbes(w: World, steps: seq<Step>) {
    && (w.phase == Returned(NotInstalled) <==> FindDocker(false) in steps)
    && (w.phase == Returned(DaemonDown) <==> DockerInfo(false) in steps)
    && (w.phase == Returned(PortTaken) <==> ProbePort(true) in steps && w.spec.hostPort > 0)
    && (w.phase == Returned(Ready) <==> Poll(true) in steps)
    && (w.phase == Returned(NotReady) <==> Deadline in steps)
  }

  // and the commands that bring a container up.
  predicate SaysCommands(w: World, steps: seq<Step>) {
    && (w.phase == Returned(CreateFailed) ==> exists end :: Run(end) in steps)
    && (w.phase == Returned(StartFailed) ==> exists ok :: Start(ok) in steps)
    && (forall end | Run(end) in steps :: Attempted(w.phase, CreateFailed) && (end != Up ==> w.phase == Returned(CreateFailed)))
    && (forall ok | Start(ok) in steps :: Attempted(w.phase, StartFailed) && (!ok ==> w.phase == Returned(StartFailed)))
  }

  // A container was brought up, or that failed in this way.
  predicate Attempted(p: Phase, failure: Outcome) {
    p.Polling? || p == Returned(failure) || p == Returned(Ready) || p == Returned(NotReady)
  }

  // How many commands that change something these steps issue, and what `ready` answered in them.
  function Changes(steps: seq<Step>): nat {
    if steps == [] then 0
    else
      var last := steps[|steps| - 1];
      Changes(steps[..|steps| - 1]) + (if last.Remove? || last.Run? || last.Start? then 1 else 0)
  }

  function Answers(steps: seq<Step>): seq<bool> {
    if steps == [] then []
    else
      var last := steps[|steps| - 1];
      Answers(steps[..|steps| - 1]) + (if last.Poll? then [last.ready] else [])
  }

  predicate SaysCounts(w: World, steps: seq<Step>) {
    w.mutations == Changes(steps) && w.probes == Answers(steps)
  }

  predicate Says(w: World, steps: seq<Step>) {
    SaysProbes(w, steps) && SaysCommands(w, steps) && SaysCounts(w, steps)
  }

  lemma CountsStep(w: World, done: seq<Step>, step: Step)
    requires SaysCounts(w, done) && Enabled(w, step) && !step.Call?
    ensures SaysCounts(Apply(w, step), done + [step])
  {
    assert (done + [step])[..|done|] == done;
    assert Answers(done) + [] == Answers(done);
  }

  lemma ProbesStep(w: World, done: seq<Step>, step: Step)
    requires SaysProbes(w, done) && Enabled(w, step) && !step.Call?
    ensures SaysProbes(Apply(w, step), done + [step])
  {
    assert forall other :: other in done + [step] <==> other in done || other == step;
  }

  lemma CommandsStep(w: World, done: seq<Step>, step: Step)
    requires SaysCommands(w, done) && Enabled(w, step) && !step.Call?
    ensures SaysCommands(Apply(w, step), done + [step])
  {
    assert forall other :: other in done + [step] <==> other in done || other == step;
  }

  lemma SaysStep(w: World, done: seq<Step>, step: Step)
    requires Says(w, done) && Enabled(w, step) && !step.Call?
    ensures Says(Apply(w, step), done + [step])
  {
    hide SaysProbes, SaysCommands, SaysCounts, Apply, Enabled;
    CountsStep(w, done, step);
    ProbesStep(w, done, step);
    CommandsStep(w, done, step);
  }

  lemma {:induction false} SaysAlways(w: World, done: seq<Step>, steps: seq<Step>)
    requires Says(w, done) && Valid(w, steps) && forall step <- steps :: !step.Call?
    ensures Says(Exec(w, steps), done + steps)
    decreases |steps|
  {
    hide Apply, Enabled, Says;
    if steps == [] {
      assert done + steps == done;
    } else {
      assert steps[0] in steps;
      SaysStep(w, done, steps[0]);
      assert done + [steps[0]] + steps[1..] == done + steps;
      SaysAlways(Apply(w, steps[0]), done + [steps[0]], steps[1..]);
    }
  }

  /** Every result of a call names what went wrong, and nothing that went wrong is reported as anything else. */
  lemma ResultNamesFailure(w: World, spec: Spec, steps: seq<Step>)
    requires Enabled(w, Call(spec)) && Valid(Apply(w, Call(spec)), steps) && forall step <- steps :: !step.Call?
    ensures Says(Exec(Apply(w, Call(spec)), steps), steps)
  {
    hide Valid, Exec;
    assert Says(Apply(w, Call(spec)), []);
    assert [] + steps == steps;
    SaysAlways(Apply(w, Call(spec)), [], steps);
  }
}
