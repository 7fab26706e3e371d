/**
  Behaviours of the jobs sharing one Tomcat: any number of RSP setups and stops, interleaved. A
  setup is four critical sections (building, deployed, the other jobs synchronised, running) and a
  stop is two (the job itself, then the other managed jobs); a loop under the table's lock is one.
*/
module TomcatRuns {
  import opened Jobs
  import opened SharedTomcat

  datatype Stage = Preparing | DeployedAt(port: int) | SyncedAt(port: int)

  datatype World = World(
    jobs: Table,
    setups: map<string, Stage>,  // the setups under way
    lastSync: int)               // the port of the last setup that synchronised the others

  datatype Step =
    | BeginSetup(id: string)
    | SetupFails(id: string, msg: string)
    | Deploy(id: string, port: int, path: string)
    | Sync(id: string)
    | MarkRunning(id: string)
    | MarkTargetStopped(id: string)
    | StopOthers(id: string)
    | StopFails(id: string, msg: string)

  predicate Enabled(w: World, step: Step) {
    && step.id in w.jobs
    && match step
       case BeginSetup(id) => id !in w.setups
       case SetupFails(id, _) => id in w.setups && w.setups[id].Preparing?
       case Deploy(id, _, _) => id in w.setups && w.setups[id].Preparing?
       case Sync(id) => id in w.setups && w.setups[id].DeployedAt?
       case MarkRunning(id) => id in w.setups && w.setups[id].SyncedAt?
       case MarkTargetStopped(_) | StopOthers(_) | StopFails(_, _) => true
  }

  function Apply(w: World, step: Step): World
    requires Enabled(w, step)
  {
    var id := step.id;
    var j := w.jobs[id];
    match step
    case BeginSetup(_) =>
      w.(jobs := w.jobs[id := SetStatus(j, Building, "")], setups := w.setups[id := Preparing])
    case SetupFails(_, msg) =>
      w.(jobs := w.jobs[id := SetStatus(j, Error, msg)], setups := w.setups - {id})
    case Deploy(_, port, path) =>
      w.(jobs := w.jobs[id := RspDeployed(j, port, path)], setups := w.setups[id := DeployedAt(port)])
    case Sync(_) =>
      var port := w.setups[id].port;
      w.(jobs := ForEachManaged(w.jobs, id, SyncPorts(port)), setups := w.setups[id := SyncedAt(port)],
         lastSync := port)
    case MarkRunning(_) =>
      w.(jobs := w.jobs[id := SetStatus(j, Running, "")], setups := w.setups - {id})
    case MarkTargetStopped(_) => w.(jobs := w.jobs[id := MarkStopped(j)])
    case StopOthers(_) => w.(jobs := ForEachManaged(w.jobs, id, StopAll))
    case StopFails(_, msg) => w.(jobs := w.jobs[id := SetStatus(j, Error, msg)])
  }

  /** What a step writes into which job; no other job changes. */
  lemma StepChanges(w: World, step: Step, x: string)
    requires Enabled(w, step) && x in w.jobs
    ensures Apply(w, step).jobs.Keys == w.jobs.Keys
    ensures var j := w.jobs[x];
      var own, managed := x == step.id, x != step.id && j.rspManaged;
      Apply(w, step).jobs[x] ==
        if own && step.BeginSetup? then j.(status := Building, err := "")
        else if own && (step.SetupFails? || step.StopFails?) then j.(status := Error, err := step.msg)
        else if own && step.Deploy? then j.(port := step.port, openPath := step.path, rspManaged := true)
        else if own && step.MarkRunning? then j.(status := Running, err := "")
        else if managed && step.Sync? && j.status == Running then j.(port := w.setups[step.id].port)
        else if (own && step.MarkTargetStopped?) || (managed && step.StopOthers?) then
          j.(status := Stopped, port := 0, openPath := "", rspManaged := false)
        else j
    ensures var id := step.id;
      Apply(w, step).setups ==
        if step.BeginSetup? then w.setups[id := Preparing]
        else if step.Deploy? then w.setups[id := DeployedAt(step.port)]
        else if step.Sync? then w.setups[id := SyncedAt(w.setups[id].port)]
        else if step.SetupFails? || step.MarkRunning? then w.setups - {id}
        else w.setups
  {
  }

  predicate Valid(w: World, steps: seq<Step>)
    decreases |steps|
  {
    steps == [] || (Enabled(w, steps[0]) && Valid(Apply(w, steps[0]), steps[1..]))
  }

  function Exec(w: World, steps: seq<Step>): World
    requires Valid(w, steps)
    decreases |steps|
  {
    if steps == [] then w else Exec(Apply(w, steps[0]), steps[1..])
  }

  // The launcher has just started: no job is managed or running, and no setup is under way.
  predicate Fresh(w: World) {
    && w.setups == map[]
    && forall id <- w.jobs :: !w.jobs[id].rspManaged
  }

  // A managed running job shows the port of the last synchronisation.
  predicate Agrees(w: World, id: string)
    requires id in w.jobs
  {
    w.jobs[id].rspManaged && w.jobs[id].status == Running ==> w.jobs[id].port == w.lastSync
  }

  predicate AllAgree(w: World) {
    forall id <- w.jobs :: Agrees(w, id)
  }

  // A setup under way: its job is not running, and shows the setup's port once it is deployed.
  predicate JobInv(w: World, id: string)
    requires id in w.jobs
  {
    id in w.setups ==>
      && w.jobs[id].status != Running
      && (w.jobs[id].rspManaged && !w.setups[id].Preparing? ==> w.jobs[id].port == w.setups[id].port)
  }

  predicate Inv(w: World) {
    forall id <- w.jobs :: JobInv(w, id)
  }

  lemma StepKeepsInv(w: World, step: Step)
    requires Inv(w) && Enabled(w, step)
    ensures Inv(Apply(w, step))
  {
  }

  lemma {:induction false} InvAlways(w: World, steps: seq<Step>)
    requires Inv(w) && Valid(w, steps)
    ensures Inv(Exec(w, steps))
    decreases |steps|
  {
    hide Inv, Apply, Enabled;
    if steps == [] {
    } else {
      StepKeepsInv(w, steps[0]);
      InvAlways(Apply(w, steps[0]), steps[1..]);
    }
  }

  lemma FreshHolds(w: World)
    requires Fresh(w)
    ensures Inv(w) && AllAgree(w)
  {
  }

  // ---------------------------------------------------------------- stale ports

  // This step marks a managed job as running after another setup synchronised another port.
  predicate MarksStale(w: World, step: Step)
    requires Enabled(w, step)
  {
    step.MarkRunning? && w.jobs[step.id].rspManaged && w.setups[step.id].port != w.lastSync
  }

  // No setup of this behaviour ends after another one has synchronised another port.
  predicate EndsCurrent(w: World, steps: seq<Step>)
    requires Valid(w, steps)
    decreases |steps|
  {
    steps == [] || (!MarksStale(w, steps[0]) && EndsCurrent(Apply(w, steps[0]), steps[1..]))
  }

  // All ports agree in every state of this behaviour.
  predicate AlwaysAgree(w: World, steps: seq<Step>)
    requires Valid(w, steps)
    decreases |steps|
  {
    AllAgree(w) && (steps == [] || AlwaysAgree(Apply(w, steps[0]), steps[1..]))
  }

  lemma AgreementStep(w: World, step: Step)
    requires Inv(w) && AllAgree(w) && Enabled(w, step)
    ensures AllAgree(Apply(w, step)) <==> !MarksStale(w, step)
  {
    var v := Apply(w, step);
    if MarksStale(w, step) {
      assert JobInv(w, step.id);
      assert !Agrees(v, step.id);
    }
  }

  lemma {:induction false} AgreeWhileCurrent(w: World, steps: seq<Step>)
    requires Inv(w) && AllAgree(w) && Valid(w, steps)
    ensures AlwaysAgree(w, steps) <==> EndsCurrent(w, steps)
    decreases |steps|
  {
    hide Inv, AllAgree, Apply, Enabled, MarksStale;
    if steps == [] {
    } else {
      StepKeepsInv(w, steps[0]);
      AgreementStep(w, steps[0]);
      if !MarksStale(w, steps[0]) {
        AgreeWhileCurrent(Apply(w, steps[0]), steps[1..]);
      }
    }
  }

  /**
    Over every interleaving of setups and stops: every managed running job shows the port of the last
    synchronisation in every state, if and only if no setup marked its job as running after another
    one had synchronised another port.
  */
  lemma PortsAgreeIff(w: World, steps: seq<Step>)
    requires Fresh(w) && Valid(w, steps)
    ensures AlwaysAgree(w, steps) <==> EndsCurrent(w, steps)
  {
    FreshHolds(w);
    AgreeWhileCurrent(w, steps);
  }

  /** The same for one job in one reachable state: whether it agrees is settled when it is marked as running. */
  lemma MarkedAgreesIff(w: World, steps: seq<Step>, x: string)
    requires Fresh(w) && Valid(w, steps)
    requires Enabled(Exec(w, steps), MarkRunning(x)) && Exec(w, steps).jobs[x].rspManaged
    ensures var v := Exec(w, steps);
      var after := Apply(v, MarkRunning(x));
      x in after.jobs && (Agrees(after, x) <==> v.setups[x].port == v.lastSync)
  {
    FreshHolds(w);
    InvAlways(w, steps);
    assert JobInv(Exec(w, steps), x);
  }

  /** After that, as long as the job stays managed and running, only a synchronisation changes it, and mends it. */
  lemma OnlySyncMends(w: World, steps: seq<Step>, x: string, step: Step)
    requires Fresh(w) && Valid(w, steps) && Enabled(Exec(w, steps), step)
    requires var v := Exec(w, steps); x in v.jobs && v.jobs[x].rspManaged && v.jobs[x].status == Running
    ensures var v := Exec(w, steps);
      var after := Apply(v, step);
      && x in after.jobs
      && (after.jobs[x].rspManaged && after.jobs[x].status == Running ==>
            (Agrees(after, x) <==> Agrees(v, x) || step.Sync?))
  {
    FreshHolds(w);
    InvAlways(w, steps);
    assert JobInv(Exec(w, steps), x);
  }

  /** Every overtaking with another port shows: the overtaken job is marked as running with its stale port. */
  lemma OvertakenShowsStalePort(w: World, id: string, x: string)
    requires Inv(w) && Enabled(w, Sync(id)) && x in w.jobs && w.jobs[x].rspManaged
    requires x in w.setups && w.setups[x].SyncedAt? && w.setups[x].port != w.setups[id].port
    ensures Valid(w, [Sync(id), MarkRunning(x)])
    ensures var v := Exec(w, [Sync(id), MarkRunning(x)]); x in v.jobs && !Agrees(v, x)
  {
    assert JobInv(w, x);
    TwoSteps(w, Sync(id), MarkRunning(x));
  }

  lemma TwoSteps(w: World, a: Step, b: Step)
    requires Enabled(w, a) && Enabled(Apply(w, a), b)
    ensures Valid(w, [a, b]) && Exec(w, [a, b]) == Apply(Apply(w, a), b)
  {
    hide Enabled, Apply;
    var v := Apply(w, a);
    assert [a, b][1..] == [b] && [b][1..] == [];
    assert Valid(v, [b]) && Exec(v, [b]) == Apply(v, b);
  }

  // ---------------------------------------------------------------- one operation after another

  datatype Op = SetUp(id: string, port: int, path: string) | StopClicked(id: string)

  function Do(jobs: Table, op: Op): Table
    requires op.id in jobs
  {
    match op
    case SetUp(id, port, path) => SetupSucceeded(jobs, id, port, path)
    case StopClicked(id) =>
      var (j, taken) := StopSection(jobs[id]);
      if taken.TakeTomcat? then TomcatStopped(jobs, id) else jobs[id := j]
  }

  predicate Known(jobs: Table, ops: seq<Op>) {
    forall op <- ops :: op.id in jobs
  }

  function DoAll(jobs: Table, ops: seq<Op>): (r: Table)
    requires Known(jobs, ops)
    ensures r.Keys == jobs.Keys
  {
    if ops == [] then jobs else Do(DoAll(jobs, ops[..|ops| - 1]), ops[|ops| - 1])
  }

  // The targets set up and not yet stopped, by themselves or together with another one.
  function Live(ops: seq<Op>): set<string> {
    if ops == [] then {}
    else
      var before := Live(ops[..|ops| - 1]);
      match ops[|ops| - 1]
      case SetUp(id, _, _) => before + {id}
      case StopClicked(id) => if id in before then {} else before
  }

  function LastPort(ops: seq<Op>): int {
    if ops == [] then 0
    else match ops[|ops| - 1]
      case SetUp(_, port, _) => port
      case StopClicked(_) => LastPort(ops[..|ops| - 1])
  }

  // Where the target was deployed last.
  function PathOf(ops: seq<Op>, id: string): string {
    if ops == [] then ""
    else match ops[|ops| - 1]
      case SetUp(x, _, path) => if x == id then path else PathOf(ops[..|ops| - 1], id)
      case StopClicked(_) => PathOf(ops[..|ops| - 1], id)
  }

  predicate EverSetUp(ops: seq<Op>, id: string) {
    exists k | 0 <= k < |ops| :: ops[k].SetUp? && ops[k].id == id
  }

  // No process of its own: what RSP setups and stops leave alone.
  predicate NoProcess(j: JobState) {
    j.cmd.None? && j.depCmds == []
  }

  predicate JobAfter(j: JobState, live: bool, ever: bool, port: int, path: string) {
    && (j.rspManaged <==> live)
    && (live ==> j.status == Running && j.port == port && j.openPath == path)
    && (!live && ever ==> j.status == Stopped && j.port == 0 && j.openPath == "")
  }

  /**
    Over every sequence of successful setups and stops: the managed jobs are exactly the live
    targets, all of them running on the port of the last setup, and every other target that was
    ever set up is stopped, without a port. The targets operated on have no process of their own;
    the other jobs of the table may be anything but managed.
  */
  lemma {:induction false} WholeRuns(jobs: Table, ops: seq<Op>)
    requires Known(jobs, ops)
    requires forall id <- jobs :: !jobs[id].rspManaged
    requires forall op <- ops :: NoProcess(jobs[op.id])
    ensures forall id <- jobs ::
      JobAfter(DoAll(jobs, ops)[id], id in Live(ops), EverSetUp(ops, id), LastPort(ops), PathOf(ops, id))
    ensures forall id <- jobs :: NoProcess(jobs[id]) ==> NoProcess(DoAll(jobs, ops)[id])
    decreases |ops|
  {
    if ops == [] {
    } else {
      var before, op := ops[..|ops| - 1], ops[|ops| - 1];
      WholeRuns(jobs, before);
      forall id | id in jobs
        ensures JobAfter(DoAll(jobs, ops)[id], id in Live(ops), EverSetUp(ops, id), LastPort(ops), PathOf(ops, id))
        ensures NoProcess(jobs[id]) ==> NoProcess(DoAll(jobs, ops)[id])
      {
        assert op in ops;
        EverLonger(ops, id);
        OneOp(DoAll(jobs, before), op, id, Live(before), EverSetUp(before, id), LastPort(before), PathOf(before, id));
      }
    }
  }

  /**
    What the page shows after such a sequence: for a live target the port of the last setup, and for
    a target stopped with it the port of the catalog, as before its first setup.
  */
  lemma PortsShown(jobs: Table, ops: seq<Op>, id: string, targetPort: int)
    requires Known(jobs, ops) && id in jobs && LastPort(ops) != 0
    requires forall id <- jobs :: !jobs[id].rspManaged
    requires forall op <- ops :: NoProcess(jobs[op.id])
    ensures var shown := PortShown(DoAll(jobs, ops)[id], targetPort);
      && (id in Live(ops) ==> shown == LastPort(ops))
      && (id !in Live(ops) && EverSetUp(ops, id) ==> shown == targetPort)
  {
    WholeRuns(jobs, ops);
  }

  lemma EverLonger(ops: seq<Op>, id: string)
    requires ops != []
    ensures var op := ops[|ops| - 1];
      EverSetUp(ops, id) <==> EverSetUp(ops[..|ops| - 1], id) || (op.SetUp? && op.id == id)
  {
    if EverSetUp(ops[..|ops| - 1], id) {
      var k :| 0 <= k < |ops| - 1 && ops[..|ops| - 1][k].SetUp? && ops[..|ops| - 1][k].id == id;
      assert ops[k].SetUp? && ops[k].id == id;
    }
    if k :| 0 <= k < |ops| - 1 && ops[k].SetUp? && ops[k].id == id {
      assert ops[..|ops| - 1][k] == ops[k];
    }
  }

  lemma OneOp(jobs: Table, op: Op, id: string, live: set<string>, ever: bool, port: int, path: string)
    requires op.id in jobs && id in jobs
    requires JobAfter(jobs[id], id in live, ever, port, path)
    requires NoProcess(jobs[op.id]) && (jobs[op.id].rspManaged <==> op.id in live)
    ensures var after := match op
        case SetUp(x, _, _) => live + {x}
        case StopClicked(x) => if x in live then {} else live;
      JobAfter(Do(jobs, op)[id], id in after, ever || (op.SetUp? && op.id == id),
               if op.SetUp? then op.port else port, if op.SetUp? && op.id == id then op.path else path)
    ensures NoProcess(jobs[id]) ==> NoProcess(Do(jobs, op)[id])
  {
  }

  /** The operations above are what the interleaved machine does when nothing comes between the steps. */
  lemma OpsAreSteps(w: World, id: string, port: int, path: string)
    requires id in w.jobs
    ensures id in w.setups && w.setups[id].Preparing? ==>
      var v := Apply(w, Deploy(id, port, path));
      Apply(Apply(v, Sync(id)), MarkRunning(id)).jobs == SetupSucceeded(w.jobs, id, port, path)
    ensures Apply(Apply(w, MarkTargetStopped(id)), StopOthers(id)).jobs == TomcatStopped(w.jobs, id)
  {
  }
}
