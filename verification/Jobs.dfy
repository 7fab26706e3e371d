/**
  A launcher job: the record guarded by `job.mu`.

  `JobState` is the value of that record between two critical sections, and one
  function below describes each critical section of the runner. The class `Job`
  is the record updated in place; each of its methods is one critical section
  and is specified by the function of the same name. The state machines in
  JobLifecycle and TomcatRuns take their steps with the same functions.
*/
module Jobs {
  import opened Wrappers

  datatype Status = Idle | Cloning | Building | Running | Done | Stopped | Error

  // The identity of an exec.Cmd (not of an operating-system process, whose ids are reused).
  type Cmd = nat

  datatype JobState = JobState(
    status: Status,
    err: string,
    stopping: bool,
    cmd: Option<Cmd>,
    depCmds: seq<Cmd>,
    port: int,
    openPath: string,
    rspManaged: bool)

  const NewJob := JobState(Idle, "", false, None, [], 0, "", false)

  // What a Stop call carries out of its critical section.
  datatype Taken = TakeCmd(cmd: Cmd) | TakeDeps(deps: seq<Cmd>) | TakeTomcat | TakeNothing

  function SetStatus(j: JobState, status: Status, err: string): JobState {
    j.(status := status, err := err)
  }

  function BeginRun(j: JobState, port: int): JobState {
    j.(port := port, stopping := false, depCmds := [])
  }

  function PublishDep(j: JobState, dep: Cmd): JobState {
    j.(depCmds := j.depCmds + [dep])
  }

  function PublishCmd(j: JobState, cmd: Cmd): JobState {
    j.(cmd := Some(cmd), status := Running)
  }

  // The critical section after cmd.Wait returned; the second component is the local `deps`.
  function FinishRun(j: JobState, exit: Option<string>): (JobState, seq<Cmd>) {
    var cleared := j.(cmd := None, depCmds := []);
    var ended :=
      if j.stopping then cleared.(status := Stopped)
      else if exit.Some? then cleared.(status := Error, err := exit.value)
      else cleared.(status := Done);
    (ended, j.depCmds)
  }

  function StopSection(j: JobState): (JobState, Taken) {
    if j.cmd.Some? then
      (j.(status := Stopped, stopping := true), TakeCmd(j.cmd.value))
    else if !j.rspManaged && |j.depCmds| > 0 then
      (j.(depCmds := [], status := Stopped, stopping := true), TakeDeps(j.depCmds))
    else if j.rspManaged then
      (j, TakeTomcat)
    else
      (j, TakeNothing)
  }

  function MarkStopped(j: JobState): JobState {
    j.(status := Stopped, port := 0, openPath := "", rspManaged := false)
  }

  function RspDeployed(j: JobState, port: int, openPath: string): JobState {
    j.(port := port, openPath := openPath, rspManaged := true)
  }

  function SyncPort(j: JobState, newPort: int): JobState {
    if j.status == Running then j.(port := newPort) else j
  }

  // The port that State reports: the catalog's stands in while none is assigned.
  function PortShown(j: JobState, targetPort: int): int {
    if j.port == 0 then targetPort else j.port
  }

  class Job {
    var status: Status
    var err: string
    var stopping: bool
    var cmd: Option<Cmd>
    var depCmds: seq<Cmd>
    var port: int
    var openPath: string
    var rspManaged: bool

    function View(): JobState
      reads this
    {
      JobState(status, err, stopping, cmd, depCmds, port, openPath, rspManaged)
    }

    constructor ()
      ensures View() == NewJob
    {
      status, err, stopping, cmd, depCmds := Idle, "", false, None, [];
      port, openPath, rspManaged := 0, "", false;
    }

    method Set(newStatus: Status, errMsg: string)
      modifies this
      ensures View() == SetStatus(old(View()), newStatus, errMsg)
    {
      status := newStatus;
      err := errMsg;
    }

    method Begin(newPort: int)
      modifies this
      ensures View() == BeginRun(old(View()), newPort)
    {
      port := newPort;
      stopping := false;
      depCmds := [];
    }

    method AppendDep(dep: Cmd)
      modifies this
      ensures View() == PublishDep(old(View()), dep)
    {
      depCmds := depCmds + [dep];
    }

    method SetRunning(newCmd: Cmd)
      modifies this
      ensures View() == PublishCmd(old(View()), newCmd)
    {
      cmd := Some(newCmd);
      status := Running;
    }

    method Finish(exit: Option<string>) returns (deps: seq<Cmd>)
      modifies this
      ensures (View(), deps) == FinishRun(old(View()), exit)
    {
      var wasStopped := stopping;
      cmd := None;
      deps := depCmds;
      depCmds := [];
      if wasStopped {
        status := Stopped;
      } else {
        if exit.Some? {
          status, err := Error, exit.value;
        } else {
          status := Done;
        }
      }
    }

    method Stop() returns (taken: Taken)
      modifies this
      ensures (View(), taken) == StopSection(old(View()))
    {
      var running := cmd;
      var managed := rspManaged;
      if running.Some? {
        status := Stopped;
        stopping := true;
      }
      var deps := [];
      if running.None? && !managed && |depCmds| > 0 {
        deps := depCmds;
        depCmds := [];
        status := Stopped;
        stopping := true;
      }
      if running.Some? {
        return TakeCmd(running.value);
      }
      if |deps| > 0 {
        return TakeDeps(deps);
      }
      return if managed then TakeTomcat else TakeNothing;
    }

    method ResetStopped()
      modifies this
      ensures View() == MarkStopped(old(View()))
    {
      status := Stopped;
      port := 0;
      openPath := "";
      rspManaged := false;
    }

    method Deployed(newPort: int, path: string)
      modifies this
      ensures View() == RspDeployed(old(View()), newPort, path)
    {
      port := newPort;
      openPath := path;
      rspManaged := true;
    }

    // The part of State that is computed.
    method VisiblePort(targetPort: int) returns (p: int)
      ensures p == PortShown(View(), targetPort)
    {
      p := port;
      if p == 0 {
        p := targetPort;
      }
    }
  }
}
