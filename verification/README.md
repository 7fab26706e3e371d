# eGovFrame launcher: a verified model

The launcher clones, builds, runs and stops eGovFrame targets from a browser page. Most of it is
orchestration, but inside it are concurrent state machines, two wire protocols, text rewriters that
must not damage the files they patch, and a pair of scripts that guard an append-only record. This
project models those parts in Dafny and proves what they promise.

Verify everything with `dafny verify dfyconfig.toml`.

## How it is built

Code that updates things in place is a class whose methods are proved equal to functions on values;
the promises are lemmas about those functions, in literal texts and in what can be read off the
inputs. Code that runs concurrently is a machine: one step for each critical section, process start,
kill, send or docker command, and a behaviour is any sequence of enabled steps, so a lemma about
`Exec(Init, steps)` speaks about every reachable state of every interleaving. `RunnerLoop` and
`EnsureContainer` close the gap between the two: the runner's loops are written as methods, those of
`RunnerLoop` on a `Job` object, that let anybody interfere between two of their steps, and are proved
to take only steps of the machine.

| modules | part of the launcher |
|---|---|
| `Jobs`, `JobLifecycle`, `JobRecords`, `JobOverlaps`, `JobBehaviours`, `RunnerLoop` | one job: any number of runs, which may overlap, each with its chain of dependency services and its final process, and any number of Stop calls |
| `SharedTomcat`, `TomcatRuns` | the jobs that share one Tomcat through the RSP backend |
| `Locks` | the order in which all threads take mutexes and wait for each other |
| `LogBuf`, `LogFanout`, `Sse`, `LogConsole` | a log line's way from `Append` to the text in the browser |
| `RspFraming`, `RspClient`, `RspSession`, `RspConversation` | Content-Length framing (header part of the base protocol of the Language Server Protocol) and JSON-RPC 2.0 sessions |
| `Rewriting`, `XmlScan`, `XmlEdits`, `XmlComments`, `ServerXml`, `ServerXmlEdits`, `ServerXmlPatch`, `ServerXmlSearch`, `ServerXmlResult`, `ServerXmlText`, `ServerXmlComments` | `patchServerXML` |
| `RewriteLocality`, `FilePatches`, `SourceTree` | the patches reapplied by every Clone, and the JDBC script patch |
| `Containers`, `EnsureContainer` | `ensureDockerContainer` |
| `Environment` | the environment of child processes |
| `EvidenceLines`, `Evidence` | the research evidence scripts |
| `Text`, `Wrappers` | strings, decimal numbers, `Option` and `Result` |

## What turned out not to hold as documented

Each of these is a lemma with a concrete behaviour or input, next to the exact condition.

- A run that is begun while `depCmds` is not empty orphans what is in it: survivors of a failed run
  (`JobBehaviours.BeginningOverOrphans`), and the services of a stopped run whose process has not ended
  yet (`RerunOverStopped`). Orphans run on and nobody can kill them any more. That is the only way to
  lose one (`JobLifecycle.OrphansIffBegunOver`, `AllHeldIffBegunClean`).
- A Stop is not always remembered until the run ends, and a final process cannot always be stopped:
  a run begun over a stopped one has both wrong (`JobBehaviours.RerunOverStopped`). A Stop is
  remembered exactly while no run is begun after it (`JobOverlaps.StopRememberedIff`, `VerdictIff`,
  `StopForgottenIff`), and every final process can be stopped exactly while none is published beside
  another one that is up (`AlwaysStoppableIff`).
- The page does not keep runs apart, since it looks only at the status, and a Stop sets that at once
  (`JobBehaviours.StoppedButWaiting`, `JustBegun`, `EndedButReaping`). `JobOverlaps.PageAllowsRunIff`
  and `GateOpenIff` say exactly when it lets a run begin.
- A stopped run that then fails in its chain ends as Error, not Stopped
  (`JobBehaviours.AbortOverridesStop`); `JobOverlaps.VerdictIff` and `JobLifecycle.StopIsSticky` say
  exactly when.
- `patchServerXML` says that it skips comments. The search for the connector does, the search for the
  `<Server>` tag does not, and a comment may begin inside a tag: `ServerXmlComments.CommentsSurviveIff`
  says exactly when all comments survive.
- A `<Server>` tag that is not closed before the connector's tag contains it. Then the shutdown port is
  lost: the patch fails if that is negative, as `runWAR` passes it, and patches the connector alone
  otherwise (`ServerXmlResult.NestedTagsLosePort`). The two tags are replaced separately exactly if
  they share no text (`PatchIsLocal`).
- Patching `server.xml` twice works only for non-negative ports; `runWAR` passes -1
  (`ServerXmlResult.PatchIdempotent`).
- A container whose data must survive is removed if somebody starts it by hand just after the launcher
  inspected it (`Containers.StartedByHandIsLost`), and only then (`DataIsKeptIff`). A cleanly stopped
  Redis container is replaced if reading its exit code fails
  (`Containers.BlankExitCodeLosesCleanStop`, `BlankReadingLosesCleanIff`).
- If an RSP setup ends after another one has synchronised another port, its job shows a stale port
  (`TomcatRuns.OvertakenShowsStalePort`), and only then (`PortsAgreeIff`).
- A log line with a bare carriage return is not received as one event with its own text
  (`Sse.SseRoundTrip`, both directions).
- A record appended to a month file whose last line has not ended is swallowed by that line
  (`Evidence.UnendedMonthSwallowsRecord`).

## Model

| member | source | states |
|---|---|---|
| `Jobs.Job.Begin` | launcher/internal/runner/runner.go:1288-1292 | a new run sets the port, clears `stopping` and drops `depCmds`; nothing else changes |
| `Jobs.Job.SetRunning` | launcher/internal/runner/runner.go:1390-1393 | publishing the final process sets `cmd` and Running, even if a Stop came first |
| `Jobs.Job.Finish` | launcher/internal/runner/runner.go:1396-1410 | the end of a run hands `depCmds` to the caller, clears both, and chooses Stopped, Error or Done |
| `Jobs.Job.Stop` | launcher/internal/runner/runner.go:1695-1712 | the critical section of Stop takes `cmd`, or the dependencies, or leaves the job to Tomcat, and says which |
| `Jobs.Job.ResetStopped` | launcher/internal/runner/runner.go:1780-1787 | the job is Stopped without port, path and RSP flag |
| `JobRecords.RecordIs` | launcher/internal/runner/runner.go:1288-1410 | over every behaviour of any runs, Stops and others: every field of the job, its message, port and path included, is what the last step that writes it wrote, and `depCmds` lists the services in the order they were started |
| `JobRecords.RunsPort` | launcher/internal/runner/runner.go:1289 | the port a run is begun with is the job's, and what State reports unless it is 0, until another step writes it |
| `JobLifecycle.DependenciesPartitioned` | launcher/internal/runner/runner.go:1321-1326 | over every interleaving of any number of runs and Stops, each dependency ever started is in exactly one place: unpublished, in `depCmds`, with one Stop, with a run that ends, killed, or orphaned by a new run; none is lost and none killed twice |
| `JobLifecycle.AliveIffHeld` | launcher/internal/runner/runner.go:1703-1722 | a dependency still runs if and only if it is in `depCmds`, with a Stop or with a run, or was orphaned, and never both |
| `JobLifecycle.AllHeldIffBegunClean` | launcher/internal/runner/runner.go:1288-1292 | everything that still runs is with somebody who can kill it, if and only if no run was begun over a non-empty `depCmds` |
| `JobLifecycle.WhatSurvives` | launcher/internal/runner/runner.go:1396-1419 | when all runs are over and all Stops have returned, however they overlapped, what still runs is exactly what is in `depCmds` and what was orphaned |
| `JobLifecycle.CompletedRunLeavesNothing` | launcher/internal/runner/runner.go:1396-1419 | one run at a time: after a run that got to its final process, with everyone returned, `cmd` and `depCmds` are empty and every dependency not orphaned before was killed exactly once |
| `JobLifecycle.AbortedRunKeepsSurvivors` | launcher/internal/runner/runner.go:1338-1341 | one run at a time: after a failed run what still runs is exactly what is in `depCmds`, still with a Stop, or orphaned earlier |
| `JobLifecycle.OneStopReapsSurvivors` | launcher/internal/runner/runner.go:1703-1722 | one further Stop kills exactly those in `depCmds`, in order, and leaves the job Stopped |
| `JobLifecycle.OrphansIffBegunOver` | launcher/internal/runner/runner.go:1291 | dependencies are orphaned if and only if a run was begun over a non-empty `depCmds` |
| `JobBehaviours.BeginningOverOrphans` | launcher/internal/runner/runner.go:1288-1292 | a behaviour in which that happens, after a failed run and through the page |
| `JobBehaviours.StoppedButWaiting` | launcher/web/app.js:383-438 | a stopped run that still waits for its process, with its service in `depCmds`, while the page allows another run |
| `JobBehaviours.JustBegun` | launcher/web/app.js:383-438 | a run that has not set its status yet, while the page allows another one |
| `JobBehaviours.EndedButReaping` | launcher/web/app.js:383-438 | a run that kills what it found at its end, while the page allows another one |
| `JobOverlaps.PageAllowsRunIff` | launcher/web/app.js:383-438 | over every behaviour and from any state: the page allows a run if and only if the last thing that made the job look busy or free was the end of a run, a failure or a Stop that took effect |
| `JobOverlaps.GateOpenIff` | launcher/web/app.js:383-438 | for runs and Stops behind the gate, up to the first overlap: while a run is under way the page allows another exactly before it builds, while it reaps, and when a Stop has made the job Stopped |
| `JobOverlaps.AlwaysStoppableIff` | launcher/internal/runner/runner.go:1695-1712 | over every behaviour: a Stop would kill the final process of every run that has one up, throughout, if and only if none is published while that of another run is up |
| `JobOverlaps.StopRememberedIff` | launcher/internal/runner/runner.go:1288-1292 | over every behaviour and from any state: `stopping` is set if and only if a Stop took effect after the last run was begun, or it was set and no run was begun |
| `JobOverlaps.VerdictIff` | launcher/internal/runner/runner.go:1396-1410 | the end of a run, overlapping or not, records Stopped if and only if a Stop took effect after the last run was begun, otherwise what the exit says; a failure on the way records Error |
| `JobOverlaps.StopForgottenIff` | launcher/internal/runner/runner.go:1396-1410 | after one Stop that took effect and no other, a run ends Stopped if and only if no run was begun since |
| `JobBehaviours.RerunOverStopped` | launcher/internal/runner/runner.go:1288-1292 | begun over a stopped run that still waits, another run orphans its service and forgets the Stop, and the old run's end takes the new process out of `cmd` |
| `JobLifecycle.StopIsSticky` | launcher/internal/runner/runner.go:1396-1410 | once a Stop took effect, `stopping` stays set for the run and a run that got to its final process ends Stopped, whatever the exit code; a run that failed on the way ends Stopped exactly if a later Stop took its survivors |
| `JobBehaviours.AbortOverridesStop` | launcher/internal/runner/runner.go:1338-1341 | a stopped run that ends as Error |
| `JobLifecycle.RunningMeansStoppable` | launcher/internal/runner/runner.go:1390-1410 | for jobs that receive only runs and stops, however they overlap, Running implies that `cmd` is set, and `cmd` is the final process of a run that is not over |
| `RunnerLoop.Runner.RunLong` | launcher/internal/runner/runner.go:1288-1419 | the run as a program on the job, with anybody interfering anywhere, other runs included, takes only steps of the machine; its port is the one reported until somebody writes another; a failure on its way is the job's status and message at the end; what was in `depCmds` when it began is orphaned and runs on; when it is over, every other dependency that still runs is in `depCmds`, with a Stop or with another run, or orphaned by a run begun over it |
| `RunnerLoop.Runner.StartChain` | launcher/internal/runner/runner.go:1295-1343 | the loop over the chain: every service of the chain was started or refused to start, and those started are known to the job or to whoever took them; a failing task ends the run |
| `RunnerLoop.Runner.FinishSection` | launcher/internal/runner/runner.go:1396-1410 | the critical section at the end takes exactly what is in `depCmds` and decides the final status and message |
| `RunnerLoop.Runner.ReapAll` | launcher/internal/runner/runner.go:1411-1419 | the dependencies found at the end are killed one by one, all of them |
| `RunnerLoop.Runner.Stop` | launcher/internal/runner/runner.go:1690-1722 | a Stop call as a program returns having killed every dependency it took |
| `SharedTomcat.Registry.ForEachRspManagedJob` | launcher/internal/runner/runner.go:1657-1670 | exactly the managed jobs other than the excepted one are changed, each by the callback |
| `SharedTomcat.StopChanges` | launcher/internal/runner/runner.go:1672-1680 | a stopped Tomcat resets the job and every other managed one, and changes nothing else |
| `SharedTomcat.SetupChanges` | launcher/internal/runner/runner.go:1682-1688 | a finished setup runs its job where it was deployed, lets every other managed running job follow the port, and changes nothing else |
| `SharedTomcat.Registry.FinishSetup` | launcher/internal/runner/runner.go:2298-2331 | a successful setup deploys, synchronises the other jobs, and marks the job running |
| `SharedTomcat.Registry.StopTomcat` | launcher/internal/runner/runner.go:1733-1773 | a Stop fails exactly if Tomcat still listens after eight probes; then only this job changes, to Error naming the port probed; otherwise all managed jobs are reset |
| `TomcatRuns.WholeRuns` | launcher/internal/runner/runner.go:1672-1688 | over every sequence of successful setups and stops of targets without a process of their own, in any table of jobs, the managed jobs are exactly the live targets, all Running on the port of the last setup and under the path of their own; every other target ever set up is Stopped with port 0 |
| `TomcatRuns.PortsShown` | launcher/internal/runner/runner.go:152-156 | what the page shows after such a sequence: the port of the last setup for a live target, the catalog's port for a target that was stopped |
| `TomcatRuns.PortsAgreeIff` | launcher/internal/runner/runner.go:2298-2304 | with setups and stops interleaved in any way, every managed running job shows the port of the last synchronisation throughout, if and only if no setup marks its job running after another one synchronised another port |
| `TomcatRuns.MarkedAgreesIff` | launcher/internal/runner/runner.go:2326-2331 | for one job: whether it agrees when it is marked running is whether its setup's port is the last one synchronised |
| `TomcatRuns.OnlySyncMends` | launcher/internal/runner/runner.go:1682-1688 | from then on, while it stays managed and running, exactly a synchronisation brings a stale job back, and nothing makes it stale |
| `TomcatRuns.OvertakenShowsStalePort` | launcher/internal/runner/runner.go:1683-1687 | a setup overtaken by a synchronisation of another port ends with a stale one |
| `TomcatRuns.OpsAreSteps` | launcher/internal/runner/runner.go:2298-2331 | the whole operations are the interleaved steps with nothing in between |
| `TomcatRuns.StepChanges` | launcher/internal/runner/runner.go:2298-2331 | which fields of which job each step writes; no other job changes |
| `Locks.ProgramsAreDisciplined` | launcher/internal/runner/runner.go:1657-1670 | every thread, whatever operations it performs, takes locks only upwards in the rank dbSetupMu, waiting for a worker, r.mu, j.mu, logbuf.mu, persist.mu |
| `Locks.NoCircularWait` | launcher/internal/runner/runner.go:1439-1452 | no reachable state of any number of threads has a circular wait, waiting for goroutines included |
| `Locks.OneLockOfAKind` | launcher/internal/runner/runner.go:1660-1668 | a thread never holds two job locks, nor two log locks |
| `Locks.DeadlockFree` | launcher/internal/runner/runner.go:2982-2984 | from every reachable state all threads can run to their end |
| `Locks.EveryoneCanFinish` | launcher/internal/runner/runner.go:3213-3221 | the same, constructing the steps, for every state in which the discipline holds |
| `LogBuf.Buf.Append` | launcher/internal/logbuf/logbuf.go:22-37 | the ring keeps the last lines and every subscriber is offered the line once, without blocking |
| `LogBuf.Buf.Snapshot` | launcher/internal/logbuf/logbuf.go:49-55 | a snapshot is the last `cap` lines of the whole history |
| `LogBuf.Buf.LastLine` | launcher/internal/logbuf/logbuf.go:57-64 | the newest line of the history, or nothing |
| `LogBuf.Buf.Subscribe` | launcher/internal/logbuf/logbuf.go:66-72 | a new id and an open, empty channel; no other subscriber changes |
| `LogBuf.Buf.Cancel` | launcher/internal/logbuf/logbuf.go:74-81 | closes and removes this subscription only, and only the first time |
| `LogFanout.BehaviourIs` | launcher/internal/logbuf/logbuf.go:22-37 | over every behaviour the history is the lines pushed, in the order of the pushes; an Append is under way from its push to its return; subscriptions and received lines are counted step by step |
| `LogFanout.RingIsTail` | launcher/internal/logbuf/logbuf.go:23-27 | in every reachable state the ring is the last `cap` lines in lock order |
| `LogFanout.HandoverIsGapFree` | launcher/internal/server/server.go:156-182 | from the first line of the snapshot on, every line is in the snapshot, in the channel, in flight, or was dropped with 256 lines waiting |
| `LogFanout.ReceivedInAppenderOrder` | launcher/internal/logbuf/logbuf.go:34-36 | what a subscriber gets from one appender are its lines in order, none twice |
| `LogFanout.OnlyOverlapIsRepeated` | launcher/internal/server/server.go:157-171 | a line is both in the snapshot and received only if it was appended between the two |
| `LogFanout.ClosedAtMostOnce` | launcher/internal/logbuf/logbuf.go:74-81 | a channel is closed at most once, exactly when its id leaves the map |
| `LogFanout.SubscriberIsStable` | launcher/internal/logbuf/logbuf.go:67-72 | ids are never reused, only its own cancel closes a channel, and nothing enters after that |
| `Sse.Response.SendLine` | launcher/internal/server/server.go:160-166 | the loop writes the encoding of one log line |
| `Sse.Response.HandleEvents` | launcher/internal/server/server.go:168-184 | the response is the encoding of the snapshot followed by the lines received |
| `Sse.SseRoundTrip` | launcher/internal/server/server.go:160-166 | parsed as section 9.2.6 of the WHATWG HTML standard says, the response is one event per log line with CRLF turned into LF, a line without carriage returns as it is, if and only if no carriage return lacks its line feed |
| `Sse.CrLfToLfIs` | launcher/internal/server/server.go:162 | each CRLF becomes an LF, and everything else stays |
| `LogConsole.Page.FlushLog` | launcher/web/app.js:20-38 | the batch is noted, buffered and appended, or everything is rebuilt above the limit |
| `LogConsole.Page.RebuildLog` | launcher/web/app.js:56-59 | the text becomes the rendering of the buffer |
| `LogConsole.Page.OnFilterChange` | launcher/web/app.js:70-73 | choosing a service rebuilds the text under its filter |
| `LogConsole.Page.ResetLogConsole` | launcher/web/app.js:61-68 | everything is empty again |
| `LogConsole.Page.OnClear` | launcher/web/app.js:102 | clearing drops buffer and text but neither the queue nor the dropdown |
| `LogConsole.FlushIsRebuild` | launcher/web/app.js:20-38 | one incremental flush shows exactly what a rebuild would show |
| `LogConsole.PageShows` | launcher/web/app.js:17-73 | after every sequence of events the text is the filtered rendering of the buffer, the buffer is the last 4000 lines flushed since the last clear or reset, the dropdown has the services seen since the last reset, and the filter is the option chosen last |
| `LogConsole.TextIsVisibleLines` | launcher/web/app.js:52-59 | the rendering, cut at its line feeds, is exactly the lines that say `[service]`, or all of them, in order |
| `LogConsole.ServiceOfIs` | launcher/web/app.js:41-42 | a line names a service exactly by the first `--- [name] [` in it |
| `LogConsole.ServicesExact` | launcher/web/app.js:41-50 | the dropdown offers every service named by a line, no other, none twice |
| `LogConsole.OwnLinesMatch` | launcher/web/app.js:52-54 | the line that put a service into the dropdown is shown when that service is chosen |
| `RspFraming.FrameRoundTrip` | launcher/internal/runner/rsp_client.go:90-111 | a frame is read back as its body and nothing more, with any other header lines around the length |
| `RspFraming.FramesRoundTrip` | launcher/internal/runner/rsp_client.go:65-71 | any list of non-empty bodies comes back in order with nothing left over |
| `RspFraming.FrameIgnoresWhatFollows` | launcher/internal/runner/rsp_client.go:108-111 | reading a frame consumes exactly that frame, whatever follows |
| `Text.AtoiItoa` | launcher/internal/runner/rsp_client.go:102 | printing and parsing a length undo each other for every Go int |
| `RspClient.Client.Send` | launcher/internal/runner/rsp_client.go:49-73 | the next id, and one frame with the request; when marshalling or a write fails the id is used up and at most a beginning of the frame was written |
| `RspClient.Client.ReadString` | launcher/internal/runner/rsp_client.go:92 | up to and including the first line feed, or the end of the stream |
| `RspClient.Client.ReadBody` | launcher/internal/runner/rsp_client.go:90-111 | the header loop and the body read agree with the frame parser, cursor included |
| `RspClient.Client.ReadMsg` | launcher/internal/runner/rsp_client.go:86-122 | the first message that is no server request, after answering the requests before it |
| `RspClient.Client.Call` | launcher/internal/runner/rsp_client.go:136-157 | what the specified reading of the unread bytes gives, or that the request could not be sent, which leaves them unread |
| `RspClient.Client.WaitState` | launcher/internal/runner/rsp_client.go:159-186 | the verdict of the first state change that decides |
| `RspSession.MsgInFrames` | launcher/internal/runner/rsp_client.go:86-122 | on a stream of whole frames, reading bytes and reading bodies are the same |
| `RspSession.AnswerIffResponse` | launcher/internal/runner/rsp_client.go:147-155 | a call is answered exactly by the first response to its id in what arrives |
| `RspSession.NoResponseNoAnswer` | launcher/internal/runner/rsp_client.go:147-150 | without a response to it a call ends with the end of what arrives, or with what cannot be read |
| `RspSession.WaitTellsState` | launcher/internal/runner/rsp_client.go:159-186 | a wait ends with the first state change of its server that is the state waited for, or, as an error, "stopped"; without one like a call |
| `RspSession.SessionAccounts` | launcher/internal/runner/rsp_client.go:116-119 | over a whole session nothing is lost, every server request read is answered once, in order, with its own id, and requests carry consecutive ids, those that could not be sent included |
| `RspSession.IdsStrictlyIncrease` | launcher/internal/runner/rsp_client.go:50-51 | no id is used twice |
| `RspSession.CallGetsOwnAnswer` | launcher/internal/runner/rsp_client.go:136-157 | whatever happened before, a call returns only a response to its own id, never a late answer, a notification or a server request |
| `RspConversation.OpTells` | launcher/internal/runner/rsp_client.go:147-155 | the first response to a call is reported as its result if its error is absent or null, and as that error otherwise; a request that could not be sent as such |
| `RspConversation.PerformCall` | launcher/internal/runner/rsp_client.go:136-157 | a call on the client, with what arrives for it, is the step of a session: result, bytes written and bytes left, and it tells the result or the error of the first response |
| `RspConversation.PerformWait` | launcher/internal/runner/rsp_client.go:159-186 | so is a wait |
| `RspConversation.Converse` | launcher/internal/runner/rsp_client.go:234-344 | any sequence of calls and waits on one client is a session, so what is proved of sessions holds of the bytes; every report tells the first response, or the state met |
| `ServerXml.PatchServerXml` | launcher/internal/runner/runner.go:866-912 | the loops over comments and connectors compute the specified patch |
| `ServerXmlSearch.TagLenIs` | launcher/internal/runner/runner.go:829-833 | a tag is its name, a word boundary, and everything up to the first `>` |
| `ServerXmlSearch.ServerTagIsFirst` | launcher/internal/runner/runner.go:867-870 | the `<Server>` tag found is the first one of the document |
| `ServerXmlSearch.CommentIs` | launcher/internal/runner/runner.go:822-827 | a comment goes from `<!--` to the first `-->` behind it |
| `ServerXmlSearch.SelectIsFirst` | launcher/internal/runner/runner.go:887-898 | the connector selected is the first outside comments that says `protocol="HTTP/1.1"` and not `SSLEnabled="true"`, tags inside earlier ones apart; without one, none is |
| `ServerXml.PortsKeepTag` | launcher/internal/runner/runner.go:837-842 | rewriting ports in a tag gives a tag of the same element that ends alike |
| `ServerXml.InsertKeepsTag` | launcher/internal/runner/runner.go:846-855 | an attribute inserted before the closing bracket leaves one whole tag |
| `ServerXml.InsertKeepsPorts` | launcher/internal/runner/runner.go:846-855 | and leaves its port attributes alone |
| `ServerXml.SelectHere` | launcher/internal/runner/runner.go:888-898 | the selected connector is selected again after it was patched |
| `ServerXmlEdits.SelectRead` | launcher/internal/runner/runner.go:875-898 | over any document, before and after any ports in it are replaced, the search for the connector stops at the same edit |
| `ServerXmlEdits.FoundPiece` | launcher/internal/runner/runner.go:867-874 | the first tag stays the first tag, in its new place, when ports are replaced and attributes inserted anywhere |
| `ServerXmlPatch.Layouts` | launcher/internal/runner/runner.go:829-833 | in every document the two tags lie apart or one contains the other, ending at the same bracket |
| `ServerXmlPatch.ServerStep` | launcher/internal/runner/runner.go:867-874 | rewriting the `<Server>` tag leaves both tags where they are found, in each of these layouts |
| `ServerXmlResult.ConnectorStep` | launcher/internal/runner/runner.go:902-909 | so does rewriting the connector |
| `ServerXmlPatch.PatchOutcome` | launcher/internal/runner/runner.go:866-912 | for every document: each of the four errors, and success, exactly when the original document lacks or has what it names: the `<Server>` tag, its port, the live connector, its port (outside the `<Server>` tag, if the shutdown port is negative) |
| `ServerXmlResult.PatchIsLocal` | launcher/internal/runner/runner.go:866-912 | for every document: a successful patch replaces the first `<Server>` tag and the connector selected in the original, and nothing else, if and only if the two share no text; if they do, which text replaces the outer one |
| `ServerXmlResult.PatchIsEffective` | launcher/internal/runner/runner.go:887-909 | for every document: on the result the same search finds the patched tags, the live connector carrying the requested port, and the `<Server>` tag carrying its own exactly unless the connector's has overwritten it |
| `ServerXmlText.PatchedTextIs` | launcher/internal/runner/runner.go:902-907 | a patched connector is its own text with its ports replaced, then ` URIEncoding="UTF-8"` and ` useBodyEncodingForURI="true"`, each exactly if it had no such attribute, then its end |
| `ServerXmlText.AttributesAdded` | launcher/internal/runner/runner.go:902-909 | for every document: so is the connector found on the result, with respect to the one found in the original |
| `ServerXmlResult.PatchIdempotent` | launcher/internal/runner/runner.go:832-842 | for every document: patching again changes nothing if and only if both ports are non-negative; with a negative shutdown port it fails |
| `ServerXmlComments.CommentsSurviveIff` | launcher/internal/runner/runner.go:867-885 | for every document: all comments survive byte for byte if and only if what lies in comments of the replaced tags, as a whole or from a "<!--" inside on, is replaced by itself |
| `ServerXmlComments.PlainCommentsSurviveIff` | launcher/internal/runner/runner.go:822-827 | where no comment begins inside the tags: if and only if the first `<Server>` tag is outside every comment or keeps its text |
| `ServerXmlResult.NestedTagsLosePort` | launcher/internal/runner/runner.go:866-912 | an unclosed `<Server>` tag before any connector that can be patched: the patch fails for a negative shutdown port and patches the connector alone otherwise |
| `Rewriting.SecondPass` | launcher/internal/runner/runner.go:736-765 | for every replacement rule and every text a second pass changes nothing, and it stops at exactly the first pass's replacements, or nowhere |
| `Rewriting.CopyStays` | launcher/internal/runner/runner.go:749-754 | text that is copied never becomes part of a match by what is replaced behind it |
| `RewriteLocality.PassIsLocal` | launcher/internal/runner/runner.go:837-842 | a pass copies the text outside the matches and turns each match into its literal replacement: the port, the Eureka address, or the tag with its encoding |
| `RewriteLocality.ScriptsKeepTheRest` | launcher/internal/runner/runner.go:749-754 | tag by tag: a script tag with an encoding stays, any other says behind ` encoding="UTF-8"` what it said before, and nothing else changes |
| `FilePatches.PomGetsOneBlock` | launcher/internal/runner/runner.go:1047-1109 | a pom.xml gets exactly one block inserted, exactly when it wants one and has a place, and is otherwise unchanged |
| `FilePatches.PomBlockPlace` | launcher/internal/runner/runner.go:1055-1108 | the block stands directly behind the first of the four compiler settings, or else behind the first `<configuration>` after the compiler plugin |
| `FilePatches.BlockSays` | launcher/internal/runner/runner.go:1073-1080 | it names Lombok in its version |
| `FilePatches.GradlePatchedTwice` | launcher/internal/runner/runner.go:979-1010 | both appendices are written at most once and only behind what was there |
| `FilePatches.GradleAppended` | launcher/internal/runner/runner.go:979-1010 | each build file gets its own instruction under its own mark exactly when it wants it |
| `FilePatches.GuardIsExact` | launcher/internal/runner/runner.go:1039-1043 | skipping files without the literal gives the same as rewriting them |
| `FilePatches.NoOldAddressLeft` | launcher/internal/runner/runner.go:1039-1043 | after one pass no old Eureka address is left, not even across replacement boundaries |
| `FilePatches.EveryScriptHasEncoding` | launcher/internal/runner/runner.go:749-754 | after one pass every script tag states its encoding, there are as many as before, and a second pass changes nothing |
| `SourceTree.Workspace.PatchPomXml` | launcher/internal/runner/runner.go:1047-1109 | the loop over the targets and the fallback compute the specified text |
| `SourceTree.Workspace.PatchGradleSourcesJar` | launcher/internal/runner/runner.go:979-1010 | exactly the four build files are patched |
| `SourceTree.Workspace.PatchCentralConfigEurekaPort` | launcher/internal/runner/runner.go:1019-1045 | exactly the YAML files directly under `config` are rewritten |
| `SourceTree.Workspace.PatchJdbcScriptEncoding` | launcher/internal/runner/runner.go:730-765 | the walk rewrites exactly the XML files outside `.git` and `node_modules`, and counts the files it really changed |
| `SourceTree.Workspace.Clone` | launcher/internal/runner/runner.go:923-966 | which files a Clone leaves and which status it ends with, on every path |
| `SourceTree.PipelineByPath` | launcher/internal/runner/runner.go:960-962 | by literal path: which files the patches change, every one of them, in which way, and no other |
| `SourceTree.CloneStartsFrom` | launcher/internal/runner/runner.go:923-966 | which files a Clone starts from and leaves, by whether there is a checkout, a directory and a fetch |
| `SourceTree.PipelineTwice` | launcher/internal/runner/runner.go:960-962 | the clone-time patches applied twice equal the patches applied once, on every tree |
| `SourceTree.ReclickChangesNothing` | launcher/internal/runner/runner.go:933-942 | clicking Clone again after a Clone without error changes no file |
| `SourceTree.NoOldPortAfterClone` | launcher/internal/runner/runner.go:1012-1018 | after it no configuration YAML names the old port |
| `SourceTree.ScriptsAfterWalk` | launcher/internal/runner/runner.go:724-765 | after the walk every script tag of every XML file outside `.git` and `node_modules` states its encoding and says the rest as before, and no other text and no other file is changed |
| `Containers.RemovalLosesDataIff` | launcher/internal/runner/runner.go:2773-2781 | a removal by a call that must not wipe data destroys data if and only if others started the container after it was inspected |
| `Containers.DataIsKeptIff` | launcher/internal/runner/runner.go:2739-2817 | over every sequence of such calls, with stops, crashes, empty inspections and failing commands anywhere, no container that has ever run is removed, if and only if none was started by others between its inspection and its removal |
| `Containers.StartedByHandIsLost` | launcher/internal/runner/runner.go:2773-2781 | the behaviour that shows the condition is needed |
| `Containers.CleanStopIsKeptIff` | launcher/internal/runner/runner.go:2782-2799 | over every sequence of any calls, a container is replaced only after a failure, if and only if none is removed that was misjudged: its exit code not read although it was no failure, or started by others since |
| `Containers.RemovalLosesCleanIff` | launcher/internal/runner/runner.go:2782-2799 | the same for one removal in any reachable state |
| `Containers.BlankReadingLosesCleanIff` | launcher/internal/runner/runner.go:2784-2793 | the inspection that leads to a removal loses a container that had not failed exactly if its exit code could not be read |
| `Containers.BlankExitCodeLosesCleanStop` | launcher/internal/runner/runner.go:2784-2793 | the behaviour in which it could not |
| `Containers.ResultsMean` | launcher/internal/runner/runner.go:2740-2765 | a busy port or missing Docker means that nothing was changed, success that readiness was seen, and no call changes more than two things |
| `Containers.SmoothCallRecovers` | launcher/internal/runner/runner.go:2731-2738 | whatever was left behind, a call in which nothing goes wrong ends with the container running |
| `Containers.SmoothCallReplacesIff` | launcher/internal/runner/runner.go:2766-2800 | such a call leaves a new container if and only if it found none, one that never ran, or, if it may recreate, one that exited with a code other than 0; otherwise the one it found |
| `Containers.ReadExitCodeRemovesIff` | launcher/internal/runner/runner.go:2782-2793 | an exit code that can be read leads to a removal exactly for a container that is gone or whose code is not 0 |
| `Containers.ResultNamesFailure` | launcher/internal/runner/runner.go:2740-2817 | every result names the probe or command that failed, every such failure gives that result, and the commands that change something are counted |
| `EnsureContainer.Docker.Ensure` | launcher/internal/runner/runner.go:2739-2817 | the procedure as a program, with anybody interfering anywhere, takes only steps of the machine; its result names what failed, and undisturbed it replaces exactly an unusable container |
| `EnsureContainer.Docker.BringUp` | launcher/internal/runner/runner.go:2766-2800 | the switch over the status issues the commands of the machine, or reports which one failed |
| `Environment.Cmd.SetEnvWithout` | launcher/internal/runner/runner.go:1185-1204 | the nested loops drop exactly the entries with one of the prefixes and append the new ones |
| `Environment.EffectiveWithout` | launcher/internal/runner/runner.go:1185-1204 | dropping prefixes that end keys removes those keys and leaves every other key's value |
| `Environment.DependencyFor` | launcher/internal/runner/runner.go:1307-1317 | the list a dependency service is started with |
| `Environment.DependencySees` | launcher/internal/runner/runner.go:1308-1317 | a dependency sees its own port or none, never the job's, unless the target's run environment says so; every other variable is as for the job's own command |
| `Environment.FinalFor` | launcher/internal/runner/runner.go:1370-1385 | the list the final process is started with: the command's, the forwarding entries when there is a backend, the run environment |
| `Environment.FinalSees` | launcher/internal/runner/runner.go:1461-1467 | on that list the final process does see the job's port, unless the run environment says otherwise |
| `Environment.FinalSeesEvery` | launcher/internal/runner/runner.go:1439-1485 | for every key: the run environment, or else where to forward requests to, or else what the launcher sets for every command, or else its own environment |
| `EvidenceLines.AppendedLines` | scripts/research/record-evidence.py:61-66 | an appended line is a line of its own exactly when the file is empty or ends with a line break; otherwise the last line grows by it |
| `EvidenceLines.SplitJoins` | scripts/research/check-research-evidence.py:123 | splitting into lines loses nothing |
| `EvidenceLines.LineLenIs` | scripts/research/check-research-evidence.py:123 | a line ends with the first line feed, carriage return, or both together, and a last line with the file |
| `Evidence.EntryIs` | scripts/research/check-research-evidence.py:110-114 | an entry is accepted if and only if it has exactly the four fields, names a month, counts lines from one, gives 64 hexadecimal digits and a reason that is not blank |
| `Evidence.EntriesAre` | scripts/research/check-research-evidence.py:102-105 | no allowlist is an empty one, and anything but an array of JSON is refused |
| `Evidence.ReadAllowlist` | scripts/research/check-research-evidence.py:107-120 | no problem exactly when all entries are well-formed with distinct keys |
| `Evidence.CheckMonth` | scripts/research/check-research-evidence.py:123-138 | no problem exactly when every line is pinned with the right hash or a valid record, and which pinned lines were met |
| `Evidence.Check` | scripts/research/check-research-evidence.py:98-141 | `check` returns no problems exactly when the directory is clean |
| `Evidence.Directory.AppendRecord` | scripts/research/record-evidence.py:55-68 | under any partial writes a successful call appends exactly one line, a refused record changes nothing, a failing write leaves a prefix of the line |
| `Evidence.VerdictOfLastLine` | scripts/research/check-research-evidence.py:122-140 | changing or adding a last line keeps a clean directory clean if and only if that line is in order |
| `Evidence.AppendKeepsClean` | scripts/research/record-evidence.py:55-68 | recording into a month that is empty or ends with a line break keeps the verdict |
| `Evidence.RunsKeepClean` | scripts/research/record-evidence.py:55-68 | so does every sequence of recordings, and old bytes are only extended |
| `Evidence.RunsAreRecorded` | scripts/research/record-evidence.py:55-68 | every month holds what it held, followed by the lines of the records made in it, in their order |
| `Evidence.UnendedMonthSwallowsRecord` | scripts/research/record-evidence.py:62-66 | otherwise the record runs into the last line, and the verdict is kept exactly if the longer line is still in order |

## Left out

- RunnerLoop.Runner.RunLong: starts where the run resets the job; the builds and installations that may come before (`node_modules`, missing jars) and the choice of a free port are not modelled.
- JobLifecycle.CompletedRunLeavesNothing: one run of the job at a time; what overlapping runs leave is in `WhatSurvives`.
- RunnerLoop.Runner.Stop: stopping Tomcat is one step that succeeds or fails; its probes are in `SharedTomcat.Registry.StopTomcat`.
- TomcatRuns.PortsAgreeIff: one setup of a target at a time; setups of different targets interleave freely.
- Jobs.Job: `runWAR`, which starts a process on the same record without a chain, is not a separate behaviour.
- Locks.NoCircularWait: goroutines exist from when they are spawned in the model's order, which allows a wait to pass before its goroutine starts; mutexes inside Go's library and `sync.Map` are leaves that no code holds across a call.
- LogFanout.ReceivedInAppenderOrder: no order across appenders is claimed, since lines are sent after the lock is released.
- LogBuf.Buf.Append: a send that meets a concurrent close recovers from the panic; the model refuses the value without the panic.
- Sse.SseRoundTrip: write errors of the response and the flush are not modelled.
- LogConsole.PageShows: scrolling is not modelled, and the text is a string without DOM normalisation.
- RspClient.Client.Send: JSON is an opaque codec.
- RspSession.SessionAccounts: what arrives is arbitrary; nothing is claimed about what a server makes of a frame that was written in part.
- RspClient.Client.ReadBody: a length too large to allocate panics in the source; here it reads to the end of the stream. Deadlines fall between frames; one inside a frame would leave the stream out of step.
- SourceTree.Workspace.Clone: unreadable and unwritable files, empty directories and a failing removal of the old checkout are not modelled; the tree holds regular files only.
- FilePatches.EveryScriptHasEncoding: a tag is what the regular expression matches, up to the first `>`; text is a sequence of characters, not bytes that may be invalid UTF-8.
- Containers.DataIsKeptIff: containers of the same name created by others, paused and restarting containers, and the contents of volumes are not modelled; `afterStart`, which no caller sets, is left out.
- EnsureContainer.Docker.Ensure: the deadline is a number of polling rounds.
- Environment.DependencySees: keys are case-sensitive, as on every system but Windows.
- Evidence.Check: the JSON schema, the secret patterns and the git queries are one abstract function of the record; git and the hash stand still during a check.
- Evidence.RunsKeepClean: assumes that JSON text has no raw line break and is read back as written, and one recorder at a time.
- `persist` reads and saves in two critical sections, so updates can be lost; no atomicity is claimed.
- Catalog data, JDK detection, VSCode launching, HTTP routing, card rendering, Tomcat download and unzip are plumbing around library calls.
- `extractRedisBlock`, the SQL import order and the other configuration parsers are left out.
- The `NeedsDatabase` cache is left out: the code does not keep it coherent across overlapping clones.
