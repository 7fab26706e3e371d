/**
  The launcher's mutexes and the order in which its threads take them.

  A thread is the list of acquisitions and releases it still has to perform; an operation of the
  runner contributes the list its code has. Waiting for a goroutine (a WaitGroup) is acquiring a
  lock that the goroutine holds from its start to its end. Sends into log channels never block and
  waiting for an operating-system process is not waiting for a thread, so neither appears.
*/
module Locks {
  datatype Lock =
    | DbSetup               // dbSetupMu
    | WorkerDone(worker: nat)
    | JobTable              // r.mu
    | JobLock(job: nat)     // j.mu
    | LogLock(log: nat)     // logbuf.mu
    | ConfigLock            // persist.mu

  function Rank(l: Lock): nat {
    match l
    case DbSetup => 0
    case WorkerDone(_) => 1
    case JobTable => 2
    case JobLock(_) => 3
    case LogLock(_) => 4
    case ConfigLock => 5
  }

  datatype Act = Acquire(lock: Lock) | Release(lock: Lock)

  // ---------------------------------------------------------------- what the operations do

  // A job visited by the loop over the managed jobs, and the log lines its callback writes.
  datatype Visit = Visit(job: nat, lines: nat)

  datatype Op =
    | TableSection                        // jobFor, dir, Workspace, SkipTests, JavaHome
    | JobSection(job: nat)                // State, set, Stop, markStopped, publishing a process
    | LogSection(log: nat)                // Append, Snapshot, LastLine, Subscribe, cancel
    | ConfigSection                       // persist.Load, Save and the two halves of Update
    | ForEachManaged(visits: seq<Visit>)  // forEachRSPManagedJob
    | AwaitWorker(worker: nat)            // waiting for a goroutine with no lock held
    | SetupDatabase(log: nat, lines: nat, rabbit: seq<nat>)  // rabbit: the goroutine awaited before unlocking

  function Section(lock: Lock, inside: seq<Act>): seq<Act> {
    [Acquire(lock)] + inside + [Release(lock)]
  }

  function Lines(log: nat, n: nat): seq<Act> {
    if n == 0 then [] else Section(LogLock(log), []) + Lines(log, n - 1)
  }

  function Visits(visits: seq<Visit>): seq<Act> {
    if visits == [] then []
    else Section(JobLock(visits[0].job), Lines(visits[0].job, visits[0].lines)) + Visits(visits[1..])
  }

  function Awaits(workers: seq<nat>): seq<Act> {
    if workers == [] then [] else Section(WorkerDone(workers[0]), []) + Awaits(workers[1..])
  }

  function Acts(op: Op): seq<Act> {
    match op
    case TableSection => Section(JobTable, [])
    case JobSection(job) => Section(JobLock(job), [])
    case LogSection(log) => Section(LogLock(log), [])
    case ConfigSection => Section(ConfigLock, [])
    case ForEachManaged(visits) => Section(JobTable, Visits(visits))
    case AwaitWorker(worker) => Section(WorkerDone(worker), [])
    case SetupDatabase(log, lines, rabbit) => Section(DbSetup, Lines(log, lines) + Awaits(rabbit))
  }

  function Program(ops: seq<Op>): seq<Act> {
    if ops == [] then [] else Acts(ops[0]) + Program(ops[1..])
  }

  // A goroutine that others wait for only writes log lines.
  function WorkerProgram(worker: nat, log: nat, lines: nat): seq<Act> {
    Lines(log, lines) + [Release(WorkerDone(worker))]
  }

  // ---------------------------------------------------------------- the system

  datatype Thread = Thread(todo: seq<Act>, held: set<Lock>)

  type System = seq<Thread>

  datatype Step =
    | Take(i: nat)
    | Spawn(ops: seq<Op>)
    | SpawnWorker(worker: nat, log: nat, lines: nat)

  predicate Free(s: System, l: Lock) {
    forall t <- s :: l !in t.held
  }

  predicate CanMove(s: System, i: nat) {
    && i < |s|
    && s[i].todo != []
    && (s[i].todo[0].Acquire? ==> Free(s, s[i].todo[0].lock))
  }

  predicate Enabled(s: System, step: Step) {
    match step
    case Take(i) => CanMove(s, i)
    case Spawn(_) => true
    case SpawnWorker(worker, _, _) => Free(s, WorkerDone(worker))
  }

  function Advance(t: Thread): Thread
    requires t.todo != []
  {
    match t.todo[0]
    case Acquire(l) => Thread(t.todo[1..], t.held + {l})
    case Release(l) => Thread(t.todo[1..], t.held - {l})
  }

  function Apply(s: System, step: Step): System
    requires Enabled(s, step)
  {
    match step
    case Take(i) => s[i := Advance(s[i])]
    case Spawn(ops) => s + [Thread(Program(ops), {})]
    case SpawnWorker(worker, log, lines) =>
      s + [Thread(WorkerProgram(worker, log, lines), {WorkerDone(worker)})]
  }

  predicate Valid(s: System, steps: seq<Step>)
    decreases |steps|
  {
    steps == [] || (Enabled(s, steps[0]) && Valid(Apply(s, steps[0]), steps[1..]))
  }

  function Exec(s: System, steps: seq<Step>): System
    requires Valid(s, steps)
    decreases |steps|
  {
    if steps == [] then s else Exec(Apply(s, steps[0]), steps[1..])
  }

  // ---------------------------------------------------------------- the discipline

  // Every lock is taken above all locks held, nothing is released that is not held, and the
  // thread ends with nothing held.
  predicate Disciplined(held: set<Lock>, todo: seq<Act>)
    decreases |todo|
  {
    if todo == [] then held == {}
    else match todo[0]
      case Acquire(l) => (forall h <- held :: Rank(h) < Rank(l)) && Disciplined(held + {l}, todo[1..])
      case Release(l) => l in held && Disciplined(held - {l}, todo[1..])
  }

  predicate Below(held: set<Lock>, l: Lock) {
    forall h <- held :: Rank(h) < Rank(l)
  }

  lemma SectionDisciplined(held: set<Lock>, l: Lock, inside: seq<Act>, rest: seq<Act>)
    requires Below(held, l) && Disciplined(held + {l}, inside + ([Release(l)] + rest))
    ensures Disciplined(held, Section(l, inside) + rest)
  {
    var part := Section(l, inside) + rest;
    assert part[1..] == inside + ([Release(l)] + rest);
  }

  lemma ReleaseDisciplined(held: set<Lock>, l: Lock, rest: seq<Act>)
    requires Below(held, l) && Disciplined(held, rest)
    ensures Disciplined(held + {l}, [Release(l)] + rest)
  {
    assert ([Release(l)] + rest)[1..] == rest;
    assert held + {l} - {l} == held;
  }

  lemma EmptySectionDisciplined(held: set<Lock>, l: Lock, rest: seq<Act>)
    requires Below(held, l) && Disciplined(held, rest)
    ensures Disciplined(held, Section(l, []) + rest)
  {
    hide Section, Disciplined;
    ReleaseDisciplined(held, l, rest);
    assert [] + ([Release(l)] + rest) == [Release(l)] + rest;
    SectionDisciplined(held, l, [], rest);
  }

  lemma {:induction false} LinesDisciplined(held: set<Lock>, log: nat, n: nat, rest: seq<Act>)
    requires Below(held, LogLock(log)) && Disciplined(held, rest)
    ensures Disciplined(held, Lines(log, n) + rest)
  {
    hide Section, Disciplined;
    if n == 0 {
      assert Lines(log, n) + rest == rest;
    } else {
      LinesDisciplined(held, log, n - 1, rest);
      EmptySectionDisciplined(held, LogLock(log), Lines(log, n - 1) + rest);
      assert Lines(log, n) + rest == Section(LogLock(log), []) + (Lines(log, n - 1) + rest);
    }
  }

  lemma {:induction false} VisitsDisciplined(visits: seq<Visit>, rest: seq<Act>)
    requires Disciplined({JobTable}, rest)
    ensures Disciplined({JobTable}, Visits(visits) + rest)
  {
    hide Section, Disciplined, Lines;
    if visits == [] {
      assert Visits(visits) + rest == rest;
    } else {
      var job, lines, after := visits[0].job, visits[0].lines, Visits(visits[1..]) + rest;
      VisitsDisciplined(visits[1..], rest);
      ReleaseDisciplined({JobTable}, JobLock(job), after);
      LinesDisciplined({JobTable} + {JobLock(job)}, job, lines, [Release(JobLock(job))] + after);
      SectionDisciplined({JobTable}, JobLock(job), Lines(job, lines), after);
      assert Visits(visits) + rest == Section(JobLock(job), Lines(job, lines)) + after;
    }
  }

  lemma {:induction false} AwaitsDisciplined(workers: seq<nat>, rest: seq<Act>)
    requires Disciplined({DbSetup}, rest)
    ensures Disciplined({DbSetup}, Awaits(workers) + rest)
  {
    hide Section, Disciplined;
    if workers == [] {
      assert Awaits(workers) + rest == rest;
    } else {
      AwaitsDisciplined(workers[1..], rest);
      EmptySectionDisciplined({DbSetup}, WorkerDone(workers[0]), Awaits(workers[1..]) + rest);
      assert Awaits(workers) + rest == Section(WorkerDone(workers[0]), []) + (Awaits(workers[1..]) + rest);
    }
  }

  lemma OpDisciplined(op: Op, rest: seq<Act>)
    requires Disciplined({}, rest)
    ensures Disciplined({}, Acts(op) + rest)
  {
    hide Section, Disciplined, Lines, Visits, Awaits;
    match op
    case TableSection => EmptySectionDisciplined({}, JobTable, rest);
    case JobSection(job) => EmptySectionDisciplined({}, JobLock(job), rest);
    case LogSection(log) => EmptySectionDisciplined({}, LogLock(log), rest);
    case ConfigSection => EmptySectionDisciplined({}, ConfigLock, rest);
    case AwaitWorker(worker) => EmptySectionDisciplined({}, WorkerDone(worker), rest);
    case ForEachManaged(visits) =>
      var end := [Release(JobTable)] + rest;
      ReleaseDisciplined({}, JobTable, rest);
      assert {} + {JobTable} == {JobTable};
      VisitsDisciplined(visits, end);
      SectionDisciplined({}, JobTable, Visits(visits), rest);
    case SetupDatabase(log, lines, rabbit) =>
      var end := [Release(DbSetup)] + rest;
      ReleaseDisciplined({}, DbSetup, rest);
      assert {} + {DbSetup} == {DbSetup};
      AwaitsDisciplined(rabbit, end);
      LinesDisciplined({DbSetup}, log, lines, Awaits(rabbit) + end);
      assert (Lines(log, lines) + Awaits(rabbit)) + end == Lines(log, lines) + (Awaits(rabbit) + end);
      SectionDisciplined({}, DbSetup, Lines(log, lines) + Awaits(rabbit), rest);
  }

  /** Every thread the launcher can start takes its locks in the order of their ranks. */
  lemma {:induction false} ProgramsAreDisciplined(ops: seq<Op>)
    ensures Disciplined({}, Program(ops))
  {
    if ops == [] {
    } else {
      ProgramsAreDisciplined(ops[1..]);
      OpDisciplined(ops[0], Program(ops[1..]));
    }
  }

  lemma WorkersAreDisciplined(worker: nat, log: nat, lines: nat)
    ensures Disciplined({WorkerDone(worker)}, WorkerProgram(worker, log, lines))
  {
    var end := [Release(WorkerDone(worker))];
    assert Disciplined({}, []);
    assert end[1..] == [] && {WorkerDone(worker)} - {WorkerDone(worker)} == {};
    LinesDisciplined({WorkerDone(worker)}, log, lines, end);
  }

  // ---------------------------------------------------------------- every reachable state

  predicate DistinctRanks(held: set<Lock>) {
    forall a, b | a in held && b in held && a != b :: Rank(a) != Rank(b)
  }

  predicate ThreadOk(t: Thread) {
    Disciplined(t.held, t.todo) && DistinctRanks(t.held)
  }

  predicate Inv(s: System) {
    && (forall t <- s :: ThreadOk(t))
    && (forall i, k | 0 <= i < k < |s| :: s[i].held !! s[k].held)
  }

  lemma StepKeepsInv(s: System, step: Step)
    requires Inv(s) && Enabled(s, step)
    ensures Inv(Apply(s, step))
  {
    match step
    case Take(i) =>
      assert ThreadOk(s[i]);
      AdvanceOk(s[i]);
      var after := Apply(s, step);
      forall k | 0 <= k < |s| && k != i
        ensures after[i].held !! after[k].held
      {
        assert s[k] in s;
        assert s[i].held !! s[k].held;
      }
    case Spawn(ops) => ProgramsAreDisciplined(ops);
    case SpawnWorker(worker, log, lines) => WorkersAreDisciplined(worker, log, lines);
  }

  lemma AdvanceOk(t: Thread)
    requires ThreadOk(t) && t.todo != []
    ensures ThreadOk(Advance(t))
  {
  }

  lemma {:induction false} InvAlways(s: System, steps: seq<Step>)
    requires Inv(s) && Valid(s, steps)
    ensures Inv(Exec(s, steps))
    decreases |steps|
  {
    hide Inv, Apply, Enabled;
    if steps == [] {
    } else {
      StepKeepsInv(s, steps[0]);
      InvAlways(Apply(s, steps[0]), steps[1..]);
    }
  }

  // ---------------------------------------------------------------- no deadlock

  // Thread i wants a lock that thread k holds.
  predicate WaitsFor(s: System, i: nat, k: nat) {
    && i < |s| && k < |s|
    && s[i].todo != [] && s[i].todo[0].Acquire?
    && s[i].todo[0].lock in s[k].held
  }

  predicate Wants(s: System, i: nat) {
    i < |s| && s[i].todo != [] && s[i].todo[0].Acquire?
  }

  predicate CircularWait(s: System, cycle: seq<nat>) {
    && cycle != []
    && (forall n, m | 0 <= n < |cycle| && 0 <= m < |cycle| && m == n + 1 :: WaitsFor(s, cycle[n], cycle[m]))
    && WaitsFor(s, cycle[|cycle| - 1], cycle[0])
  }

  lemma WantsMore(s: System, i: nat, k: nat)
    requires Inv(s) && WaitsFor(s, i, k) && s[k].todo != [] && s[k].todo[0].Acquire?
    ensures Rank(s[i].todo[0].lock) < Rank(s[k].todo[0].lock)
  {
    assert ThreadOk(s[k]);
  }

  lemma {:induction false} RanksRise(s: System, cycle: seq<nat>, n: nat)
    requires Inv(s) && CircularWait(s, cycle) && n < |cycle|
    ensures Wants(s, cycle[0]) && Wants(s, cycle[n])
    ensures Rank(s[cycle[0]].todo[0].lock) + n <= Rank(s[cycle[n]].todo[0].lock)
  {
    hide Inv, Rank;
    var last := |cycle| - 1;
    assert n < last ==> WaitsFor(s, cycle[n], cycle[n + 1]);
    assert 0 < last ==> WaitsFor(s, cycle[0], cycle[1]);
    if n == 0 {
    } else {
      RanksRise(s, cycle, n - 1);
      WantsMore(s, cycle[n - 1], cycle[n]);
    }
  }

  /** No reachable state has a circular wait, for any number of threads. */
  lemma NoCircularWait(steps: seq<Step>, cycle: seq<nat>)
    requires Valid([], steps)
    ensures !CircularWait(Exec([], steps), cycle)
  {
    var s := Exec([], steps);
    InvAlways([], steps);
    if CircularWait(s, cycle) {
      var last := |cycle| - 1;
      RanksRise(s, cycle, last);
      WantsMore(s, cycle[last], cycle[0]);
    }
  }

  /** A thread never holds two job locks, nor two locks of any other kind. */
  lemma OneLockOfAKind(steps: seq<Step>, i: nat, a: Lock, b: Lock)
    requires Valid([], steps) && i < |Exec([], steps)|
    ensures var held := Exec([], steps)[i].held;
      a in held && b in held && Rank(a) == Rank(b) ==> a == b
  {
    InvAlways([], steps);
    assert ThreadOk(Exec([], steps)[i]);
  }

  // Follows the waits from an unfinished thread upwards to one that can move.
  lemma {:induction false} Unblocked(s: System, i: nat) returns (k: nat)
    requires Inv(s) && i < |s| && s[i].todo != []
    ensures CanMove(s, k)
    decreases if s[i].todo[0].Acquire? then 6 - Rank(s[i].todo[0].lock) else 0
  {
    if CanMove(s, i) {
      return i;
    }
    var l := s[i].todo[0].lock;
    var t :| t in s && l in t.held;
    var o :| 0 <= o < |s| && s[o] == t;
    assert ThreadOk(s[o]);
    if CanMove(s, o) {
      return o;
    }
    WantsMore(s, i, o);
    k := Unblocked(s, o);
  }

  function Pending(s: System): nat {
    if s == [] then 0 else |s[0].todo| + Pending(s[1..])
  }

  lemma {:induction false} PendingDrops(s: System, i: nat)
    requires i < |s| && s[i].todo != []
    ensures Pending(s[i := Advance(s[i])]) == Pending(s) - 1
  {
    var t := s[i := Advance(s[i])];
    if i > 0 {
      assert t[1..] == s[1..][i - 1 := Advance(s[i])];
      PendingDrops(s[1..], i - 1);
    } else {
      assert t[1..] == s[1..];
    }
  }

  lemma {:induction false} NonePending(s: System)
    ensures Pending(s) == 0 <==> forall t <- s :: t.todo == []
  {
    if s == [] {
    } else {
      assert s == [s[0]] + s[1..];
      NonePending(s[1..]);
    }
  }

  predicate AllFinished(s: System) {
    forall t <- s :: t.todo == [] && t.held == {}
  }

  /**
    From every reachable state, however the threads got there, all of them can run to their end:
    as long as one is unfinished, some thread can move, and every move brings the end nearer.
  */
  lemma {:induction false} EveryoneCanFinish(s: System) returns (steps: seq<Step>)
    requires Inv(s)
    ensures Valid(s, steps) && AllFinished(Exec(s, steps))
    ensures forall step <- steps :: step.Take?
    decreases Pending(s)
  {
    NonePending(s);
    if t :| t in s && t.todo != [] {
      var i :| 0 <= i < |s| && s[i] == t;
      var k := Unblocked(s, i);
      PendingDrops(s, k);
      StepKeepsInv(s, Take(k));
      var rest := EveryoneCanFinish(Apply(s, Take(k)));
      steps := [Take(k)] + rest;
      assert steps[1..] == rest;
    } else {
      steps := [];
      assert forall t <- s :: ThreadOk(t);
    }
  }

  lemma DeadlockFree(steps: seq<Step>)
    requires Valid([], steps)
    ensures exists more :: FinishesWith(Exec([], steps), more)
  {
    InvAlways([], steps);
    var more := EveryoneCanFinish(Exec([], steps));
    assert FinishesWith(Exec([], steps), more);
  }

  predicate FinishesWith(s: System, more: seq<Step>) {
    Valid(s, more) && AllFinished(Exec(s, more)) && forall step <- more :: step.Take?
  }
}
