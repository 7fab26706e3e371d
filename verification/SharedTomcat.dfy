/**
  The jobs that share one Tomcat through the RSP backend. The class `Registry` is the runner's job
  table with the loops over it, specified by functions on tables of job states. TomcatRuns takes
  the steps of any number of interleaved RSP setups and stops with the same functions.
*/
module SharedTomcat {
  import opened Jobs
  import opened Rewriting

  type Table = map<string, JobState>

  // The callback that `forEachRSPManagedJob` is called with.
  datatype Action = StopAll | SyncPorts(port: int)

  function Act(action: Action, j: JobState): JobState {
    match action
    case StopAll => MarkStopped(j)
    case SyncPorts(port) => SyncPort(j, port)
  }

  function Visited(id: string, j: JobState, exceptId: string, action: Action): JobState {
    if id != exceptId && j.rspManaged then Act(action, j) else j
  }

  function ForEachManaged(jobs: Table, exceptId: string, action: Action): Table {
    map id | id in jobs :: Visited(id, jobs[id], exceptId, action)
  }

  function TomcatStopped(jobs: Table, id: string): Table
    requires id in jobs
  {
    ForEachManaged(jobs[id := MarkStopped(jobs[id])], id, StopAll)
  }

  function SetupSucceeded(jobs: Table, id: string, port: int, path: string): Table
    requires id in jobs
  {
    var synced := ForEachManaged(jobs[id := RspDeployed(jobs[id], port, path)], id, SyncPorts(port));
    synced[id := SetStatus(synced[id], Running, "")]
  }

  // The port a Stop probes, and what it reports when Tomcat still answers there.
  function ProbedPort(j: JobState, targetPort: int): int {
    if PortShown(j, targetPort) == 0 then 8080 else PortShown(j, targetPort)
  }

  function StillUp(port: int): string {
    "Tomcat 정지 실패 (포트 " + Decimal(port) + "가 여전히 응답 중)"
  }

  /** A stopped Tomcat: the job and every other managed one are reset, and no other job changes. */
  lemma StopChanges(jobs: Table, id: string, x: string)
    requires id in jobs && x in jobs
    ensures TomcatStopped(jobs, id).Keys == jobs.Keys
    ensures TomcatStopped(jobs, id)[x] ==
      if x == id || jobs[x].rspManaged then jobs[x].(status := Stopped, port := 0, openPath := "", rspManaged := false)
      else jobs[x]
  {
  }

  /** A finished setup: the job runs where it was deployed, and every other managed running job follows the port. */
  lemma SetupChanges(jobs: Table, id: string, port: int, path: string, x: string)
    requires id in jobs && x in jobs
    ensures SetupSucceeded(jobs, id, port, path).Keys == jobs.Keys
    ensures SetupSucceeded(jobs, id, port, path)[x] ==
      if x == id then jobs[x].(status := Running, err := "", port := port, openPath := path, rspManaged := true)
      else if jobs[x].rspManaged && jobs[x].status == Running then jobs[x].(port := port)
      else jobs[x]
  {
  }

  lemma FailureSays(j: JobState, targetPort: int)
    ensures var after := SetStatus(j, Error, StillUp(ProbedPort(j, targetPort)));
      var probed := if j.port != 0 then j.port else if targetPort != 0 then targetPort else 8080;
      && after.status == Error
      && after.err == "Tomcat 정지 실패 (포트 " + Decimal(probed) + "가 여전히 응답 중)"
  {
  }

  class Registry {
    var jobs: map<string, Job>

    ghost predicate Valid()
      reads this
    {
      forall a, b | a in jobs && b in jobs && a != b :: jobs[a] != jobs[b]
    }

    ghost function Contents(): Table
      reads this, jobs.Values
    {
      map id | id in jobs :: jobs[id].View()
    }

    constructor ()
      ensures Valid() && Contents() == map[]
    {
      jobs := map[];
    }

    method ForEachRspManagedJob(exceptId: string, action: Action)
      requires Valid()
      modifies jobs.Values
      ensures Contents() == ForEachManaged(old(Contents()), exceptId, action)
    {
      hide Act, Job.View, Visited;
      var table := jobs;
      ghost var before := Contents();
      var ids := table.Keys;
      while ids != {}
        invariant ids <= table.Keys && jobs == table
        invariant forall id <- ids :: table[id].View() == before[id]
        invariant forall id <- table.Keys - ids ::
          table[id].View() == Visited(id, before[id], exceptId, action)
        decreases |ids|
      {
        var id :| id in ids;
        ids := ids - {id};
        VisitOne(table[id], id, exceptId, action);
      }
    }

    // One round of the loop, under the job's lock.
    method VisitOne(job: Job, id: string, exceptId: string, action: Action)
      modifies job
      ensures job.View() == Visited(id, old(job.View()), exceptId, action)
    {
      if id != exceptId && job.rspManaged {
        ApplyTo(job, action);
      }
    }

    lemma PortInView(job: Job)
      ensures job.View().port == job.port
    {
    }

    method ApplyTo(job: Job, action: Action)
      modifies job
      ensures job.View() == Act(action, old(job.View()))
    {
      match action
      case StopAll =>
        job.status := Stopped;
        job.port := 0;
        job.openPath := "";
        job.rspManaged := false;
      case SyncPorts(port) =>
        if job.status == Running {
          job.port := port;
        }
    }

    // The state updates of a setup whose deployment and start succeeded.
    method FinishSetup(id: string, port: int, path: string)
      requires Valid() && id in jobs
      modifies jobs.Values
      ensures Contents() == SetupSucceeded(old(Contents()), id, port, path)
    {
      hide ForEachManaged, Job.View, RspDeployed, SetStatus;
      assert jobs[id] in jobs.Values;
      jobs[id].Deployed(port, path);
      assert Contents() == old(Contents())[id := RspDeployed(old(Contents())[id], port, path)];
      ForEachRspManagedJob(id, SyncPorts(port));
      ghost var synced := Contents();
      assert synced[id] == jobs[id].View();
      jobs[id].Set(Running, "");
      assert Contents() == synced[id := SetStatus(synced[id], Running, "")];
    }

    /**
      The end of a Stop that found the job RSP-managed: `listening` is what the eight probes of the
      application port would answer, and without a Tomcat path there is nothing to probe.
    */
    method StopTomcat(id: string, targetPort: int, hasTomcat: bool, listening: seq<bool>) returns (failed: bool)
      requires Valid() && id in jobs && |listening| == 8
      modifies jobs.Values
      ensures failed <==> hasTomcat && forall k | 0 <= k < 8 :: listening[k]
      ensures !failed ==> Contents() == TomcatStopped(old(Contents()), id)
      ensures failed ==> var j := old(Contents())[id];
        Contents() == old(Contents())[id := SetStatus(j, Error, StillUp(ProbedPort(j, targetPort)))]
      ensures failed ==> var j := old(Contents())[id];
        var probed := if j.port != 0 then j.port else if targetPort != 0 then targetPort else 8080;
        && Contents()[id].status == Error
        && Contents()[id].err == "Tomcat 정지 실패 (포트 " + Decimal(probed) + "가 여전히 응답 중)"
    {
      hide ForEachManaged, Job.View, MarkStopped, SetStatus, StillUp;
      assert jobs[id] in jobs.Values;
      PortInView(jobs[id]);
      var appPort := jobs[id].port;
      if appPort == 0 {
        appPort := targetPort;
      }
      if appPort == 0 {
        appPort := 8080;
      }
      var stopped := !hasTomcat;
      if hasTomcat {
        var i := 0;
        while i < 8
          invariant 0 <= i <= 8 && !stopped
          invariant forall k | 0 <= k < i :: listening[k]
        {
          if !listening[i] {
            stopped := true;
            break;
          }
          i := i + 1;
        }
      }
      if stopped {
        jobs[id].ResetStopped();
        assert Contents() == old(Contents())[id := MarkStopped(old(Contents())[id])];
        ForEachRspManagedJob(id, StopAll);
        return false;
      }
      var msg := StillUp(appPort);
      jobs[id].Set(Error, msg);
      assert Contents() == old(Contents())[id := SetStatus(old(Contents())[id], Error, msg)];
      FailureSays(old(Contents())[id], targetPort);
      return true;
    }
  }
}
