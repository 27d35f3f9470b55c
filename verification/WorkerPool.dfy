/** The bounded worker pool that runs transfer tasks, as a state machine. One step
    is one action that no other goroutine can interrupt: handing a task over the
    unbuffered queue, a progress report under its lock, a worker's failure, its
    later cancellation, and so on. Runs are arbitrary interleavings. */
module WorkerPool {
  import opened Common

  /** `Cancelling` is a worker that has placed its error in the failure slot and
      not yet cancelled the others. */
  datatype Worker = Idle | Running(task: nat) | Cancelling | Exited

  /** How often a task was started, succeeded and failed, which worker started it
      last, and the bytes it reported last. */
  datatype Task = Task(starts: nat, worker: nat, successes: nat, failures: nat, reported: int)

  datatype Failure = Failure(task: nat, worker: nat)

  /** What the pool returns: no error, the first task error, or the context's. */
  datatype Ending = Completed | TaskFailed(task: nat) | ContextDone

  datatype Pool = Pool(tasks: seq<Task>, next: nat, closed: bool, workers: seq<Worker>,
                       completedBytes: int, completedFiles: nat, failure: Option<Failure>,
                       parentCancelled: bool, cancelled: bool, ending: Option<Ending>)

  datatype Step =
    | Hand(worker: nat)
    | Close
    | Report(worker: nat, bytes: int)
    | Succeed(worker: nat)
    | Fail(worker: nat)
    | Cancel(worker: nat)
    | Leave(worker: nat)
    | CancelParent
    | Return

  function Clamp(bytes: int): nat {
    if bytes < 0 then 0 else bytes
  }

  function WorkerCount(concurrency: int, tasks: nat): nat {
    var workers := if concurrency <= 0 then 1 else concurrency;
    if workers > tasks then tasks else workers
  }

  /** No tasks means no error at once; otherwise all workers wait for a task. */
  function Start(sizes: seq<int>, concurrency: int): Pool {
    Pool(seq(|sizes|, _ => Task(0, 0, 0, 0, 0)), 0, false,
         seq(WorkerCount(concurrency, |sizes|), _ => Idle),
         0, 0, None, false, false, if sizes == [] then Some(Completed) else None)
  }

  predicate Is(s: Pool, w: nat, state: Worker) {
    w < |s.workers| && s.workers[w] == state
  }

  predicate IsRunning(s: Pool, w: nat) {
    w < |s.workers| && s.workers[w].Running? && s.workers[w].task < |s.tasks|
  }

  predicate Enabled(s: Pool, step: Step) {
    && s.ending.None?
    && match step
       case Hand(w) => !s.closed && s.next < |s.tasks| && Is(s, w, Idle)
       case Close => !s.closed && (s.next == |s.tasks| || s.cancelled)
       case Report(w, _) => IsRunning(s, w)
       case Succeed(w) => IsRunning(s, w)
       case Fail(w) => IsRunning(s, w)
       case Cancel(w) => Is(s, w, Cancelling)
       case Leave(w) => s.closed && Is(s, w, Idle)
       case CancelParent => !s.parentCancelled
       case Return => s.closed && forall w | 0 <= w < |s.workers| :: s.workers[w] == Exited
  }

  /** A report replaces what its task reported before and moves the total by the
      difference. */
  function Reported(s: Pool, task: nat, bytes: int): Pool
    requires task < |s.tasks|
  {
    var was := s.tasks[task];
    s.(tasks := s.tasks[task := was.(reported := Clamp(bytes))],
       completedBytes := s.completedBytes + (Clamp(bytes) - was.reported))
  }

  function Next(sizes: seq<int>, s: Pool, step: Step): Pool
    requires |sizes| == |s.tasks| && Enabled(s, step)
  {
    match step
    case Hand(w) =>
      var task := s.tasks[s.next];
      s.(tasks := s.tasks[s.next := task.(starts := task.starts + 1, worker := w)],
         workers := s.workers[w := Running(s.next)], next := s.next + 1)
    case Close => s.(closed := true)
    case Report(w, bytes) => Reported(s, s.workers[w].task, bytes)
    case Succeed(w) =>
      var i := s.workers[w].task;
      var task := s.tasks[i].(successes := s.tasks[i].successes + 1);
      Reported(s.(tasks := s.tasks[i := task], workers := s.workers[w := Idle],
                  completedFiles := s.completedFiles + 1), i, sizes[i])
    case Fail(w) =>
      var i := s.workers[w].task;
      var task := s.tasks[i].(failures := s.tasks[i].failures + 1);
      var failed := s.(tasks := s.tasks[i := task]);
      if s.failure.None? then
        failed.(failure := Some(Failure(i, w)), workers := s.workers[w := Cancelling])
      else failed.(workers := s.workers[w := Exited])
    case Cancel(w) => s.(cancelled := true, workers := s.workers[w := Exited])
    case Leave(w) => s.(workers := s.workers[w := Exited])
    case CancelParent => s.(parentCancelled := true, cancelled := true)
    case Return =>
      s.(ending := Some(if s.failure.Some? then TaskFailed(s.failure.value.task)
                        else if s.cancelled then ContextDone
                        else Completed))
  }

  /** The state after a whole run, if every step was possible. */
  function Run(sizes: seq<int>, concurrency: int, steps: seq<Step>): (r: Option<Pool>)
    ensures r.Some? ==> |r.value.tasks| == |sizes|
  {
    if steps == [] then Some(Start(sizes, concurrency))
    else
      match Run(sizes, concurrency, steps[..|steps| - 1])
      case None => None
      case Some(s) =>
        var step := steps[|steps| - 1];
        if Enabled(s, step) then Some(Next(sizes, s, step)) else None
  }

  // ----- Accounting

  function SumOfReports(tasks: seq<Task>): int {
    if tasks == [] then 0 else SumOfReports(tasks[..|tasks| - 1]) + tasks[|tasks| - 1].reported
  }

  function Successes(tasks: seq<Task>): nat {
    if tasks == [] then 0 else Successes(tasks[..|tasks| - 1]) + tasks[|tasks| - 1].successes
  }

  function Total(sizes: seq<int>): int {
    if sizes == [] then 0 else Total(sizes[..|sizes| - 1]) + sizes[|sizes| - 1]
  }

  lemma {:induction false} SumsAfterUpdate(tasks: seq<Task>, i: nat, task: Task)
    requires i < |tasks|
    ensures SumOfReports(tasks[i := task]) == SumOfReports(tasks) - tasks[i].reported + task.reported
    ensures Successes(tasks[i := task]) == Successes(tasks) - tasks[i].successes + task.successes
  {
    var n := |tasks| - 1;
    if i == n {
      assert tasks[i := task][..n] == tasks[..n];
    } else {
      SumsAfterUpdate(tasks[..n], i, task);
      assert tasks[i := task][..n] == tasks[..n][i := task];
    }
  }

  lemma {:induction false} SumsAtStart(tasks: seq<Task>)
    requires forall i :: 0 <= i < |tasks| ==> tasks[i] == Task(0, 0, 0, 0, 0)
    ensures SumOfReports(tasks) == 0 && Successes(tasks) == 0
  {
    if tasks != [] {
      SumsAtStart(tasks[..|tasks| - 1]);
    }
  }

  // ----- The invariant

  /** The counters are those of the tasks. */
  ghost predicate Accounted(s: Pool) {
    && s.completedBytes == SumOfReports(s.tasks)
    && s.completedFiles == Successes(s.tasks)
  }

  /** Whether a started task has ended. */
  predicate Ended(task: Task) {
    task.successes + task.failures > 0
  }

  /** Tasks start in order and once each; those not ended are running, and each
      in one worker; a task that succeeded has reported its whole size. */
  ghost predicate TasksValid(sizes: seq<int>, s: Pool) {
    && |s.tasks| == |sizes| && s.next <= |s.tasks|
    && (forall i :: s.next <= i < |s.tasks| ==> s.tasks[i] == Task(0, 0, 0, 0, 0))
    && (forall i :: 0 <= i < s.next ==> TaskValid(sizes[i], s, i))
    && (forall w :: 0 <= w < |s.workers| && s.workers[w].Running? ==>
          s.workers[w].task < s.next && s.tasks[s.workers[w].task].worker == w
          && !Ended(s.tasks[s.workers[w].task]))
  }

  ghost predicate TaskValid(size: int, s: Pool, i: nat)
    requires i < |s.tasks|
  {
    var task := s.tasks[i];
    && task.starts == 1 && task.successes + task.failures <= 1
    && (!Ended(task) ==> Is(s, task.worker, Running(i)))
    && (task.successes == 1 ==> task.reported == Clamp(size))
    && task.reported >= 0
  }

  /** The slot holds a task that failed whenever one did, and whoever filled it
      cancels; a worker only leaves early after a failure. */
  ghost predicate ControlValid(s: Pool) {
    && (s.failure.Some? ==> s.failure.value.task < s.next <= |s.tasks| && s.tasks[s.failure.value.task].failures == 1)
    && (s.failure.Some? && !s.cancelled ==> Is(s, s.failure.value.worker, Cancelling))
    && (forall i :: 0 <= i < |s.tasks| && s.tasks[i].failures > 0 ==> s.failure.Some?)
    && (s.cancelled ==> s.parentCancelled || s.failure.Some?)
    && (s.parentCancelled ==> s.cancelled)
    && (s.closed ==> s.next == |s.tasks| || s.cancelled)
    && (forall w :: 0 <= w < |s.workers| && s.workers[w] == Exited ==> s.closed || s.failure.Some?)
    && (forall w :: 0 <= w < |s.workers| && s.workers[w] == Cancelling ==> s.failure.Some?)
    && (s.tasks != [] ==> s.workers != [])
  }

  ghost predicate EndingValid(s: Pool) {
    s.ending.Some? ==>
      && (s.tasks != [] ==> s.closed && forall w :: 0 <= w < |s.workers| ==> s.workers[w] == Exited)
      && s.ending.value == if s.failure.Some? then TaskFailed(s.failure.value.task)
                           else if s.cancelled then ContextDone else Completed
  }

  ghost predicate Valid(sizes: seq<int>, s: Pool) {
    TasksValid(sizes, s) && ControlValid(s) && EndingValid(s) && Accounted(s)
  }

  lemma StartIsValid(sizes: seq<int>, concurrency: int)
    ensures Valid(sizes, Start(sizes, concurrency))
  {
    SumsAtStart(Start(sizes, concurrency).tasks);
  }

  /** One task's counters change, and the totals with them. */
  lemma AccountsFollow(s: Pool, t: Pool, i: nat, task: Task)
    requires Accounted(s) && i < |s.tasks| && t.tasks == s.tasks[i := task]
    requires t.completedBytes == s.completedBytes + (task.reported - s.tasks[i].reported)
    requires t.completedFiles == s.completedFiles + (task.successes - s.tasks[i].successes)
    ensures Accounted(t)
  {
    SumsAfterUpdate(s.tasks, i, task);
  }

  lemma StepKeepsAccounts(sizes: seq<int>, s: Pool, step: Step)
    requires |sizes| == |s.tasks| && Accounted(s) && Enabled(s, step)
    ensures Accounted(Next(sizes, s, step))
  {
    var t := Next(sizes, s, step);
    match step
    case Hand(w) => AccountsFollow(s, t, s.next, t.tasks[s.next]);
    case Report(w, _) => AccountsFollow(s, t, s.workers[w].task, t.tasks[s.workers[w].task]);
    case Succeed(w) => AccountsFollow(s, t, s.workers[w].task, t.tasks[s.workers[w].task]);
    case Fail(w) => AccountsFollow(s, t, s.workers[w].task, t.tasks[s.workers[w].task]);
    case _ =>
  }

  /** The next task goes to an idle worker. */
  lemma TaskStarts(sizes: seq<int>, s: Pool, t: Pool, w: nat)
    requires TasksValid(sizes, s) && s.next < |s.tasks| && Is(s, w, Idle)
    requires t.next == s.next + 1 && t.workers == s.workers[w := Running(s.next)]
    requires t.tasks == s.tasks[s.next := Task(1, w, 0, 0, 0)]
    ensures TasksValid(sizes, t)
  {
    forall i | 0 <= i < t.next
      ensures TaskValid(sizes[i], t, i)
    {
      assert i < s.next ==> TaskValid(sizes[i], s, i);
    }
  }

  /** A running task ends, its worker goes on to something else. */
  lemma TaskEnds(sizes: seq<int>, s: Pool, t: Pool, w: nat, task: Task)
    requires TasksValid(sizes, s) && IsRunning(s, w)
    requires t.next == s.next && |t.workers| == |s.workers| && t.tasks == s.tasks[s.workers[w].task := task]
    requires forall v :: 0 <= v < |s.workers| ==>
               if v == w then !t.workers[v].Running? else t.workers[v] == s.workers[v]
    requires task.starts == 1 && task.worker == w && task.successes + task.failures == 1 && task.reported >= 0
    requires task.successes == 1 ==> task.reported == Clamp(sizes[s.workers[w].task])
    ensures TasksValid(sizes, t)
  {
    forall i | 0 <= i < t.next
      ensures TaskValid(sizes[i], t, i)
    {
      assert TaskValid(sizes[i], s, i);
    }
  }

  lemma TaskReports(sizes: seq<int>, s: Pool, t: Pool, w: nat, bytes: nat)
    requires TasksValid(sizes, s) && IsRunning(s, w)
    requires t.next == s.next && t.workers == s.workers
    requires t.tasks == s.tasks[s.workers[w].task := s.tasks[s.workers[w].task].(reported := bytes)]
    ensures TasksValid(sizes, t)
  {
    forall i | 0 <= i < t.next
      ensures TaskValid(sizes[i], t, i)
    {
      assert TaskValid(sizes[i], s, i);
    }
  }

  lemma WorkerMoves(sizes: seq<int>, s: Pool, t: Pool, w: nat)
    requires TasksValid(sizes, s) && w < |s.workers| && !s.workers[w].Running?
    requires t.next == s.next && t.tasks == s.tasks && t.workers == s.workers[w := Exited]
    ensures TasksValid(sizes, t)
  {
    forall i | 0 <= i < t.next
      ensures TaskValid(sizes[i], t, i)
    {
      assert TaskValid(sizes[i], s, i);
    }
  }

  lemma EndKeepsTasks(sizes: seq<int>, s: Pool, step: Step, w: nat)
    requires TasksValid(sizes, s) && Enabled(s, step) && (step == Succeed(w) || step == Fail(w))
    ensures TasksValid(sizes, Next(sizes, s, step))
  {
    var t := Next(sizes, s, step);
    EndingTask(sizes, s, w);
    TaskEnds(sizes, s, t, w, t.tasks[s.workers[w].task]);
  }

  lemma StepKeepsTasks(sizes: seq<int>, s: Pool, step: Step)
    requires TasksValid(sizes, s) && Enabled(s, step)
    ensures TasksValid(sizes, Next(sizes, s, step))
  {
    var t := Next(sizes, s, step);
    match step
    case Hand(w) => TaskStarts(sizes, s, t, w);
    case Report(w, bytes) => TaskReports(sizes, s, t, w, Clamp(bytes));
    case Succeed(w) => EndKeepsTasks(sizes, s, step, w);
    case Fail(w) => EndKeepsTasks(sizes, s, step, w);
    case Cancel(w) => WorkerMoves(sizes, s, t, w);
    case Leave(w) => WorkerMoves(sizes, s, t, w);
    case _ => WorkersStay(sizes, s, t);
  }

  lemma EndingTask(sizes: seq<int>, s: Pool, w: nat)
    requires TasksValid(sizes, s) && IsRunning(s, w)
    ensures var task := s.tasks[s.workers[w].task];
            task.starts == 1 && task.worker == w && !Ended(task) && task.reported >= 0
  {
    assert TaskValid(sizes[s.workers[w].task], s, s.workers[w].task);
  }

  lemma WorkersStay(sizes: seq<int>, s: Pool, t: Pool)
    requires TasksValid(sizes, s)
    requires t.next == s.next && t.tasks == s.tasks && t.workers == s.workers
    ensures TasksValid(sizes, t)
  {
    forall i | 0 <= i < t.next
      ensures TaskValid(sizes[i], t, i)
    {
      assert TaskValid(sizes[i], s, i);
    }
  }

  lemma StepKeepsControl(sizes: seq<int>, s: Pool, step: Step)
    requires TasksValid(sizes, s) && ControlValid(s) && Enabled(s, step)
    ensures ControlValid(Next(sizes, s, step))
  {
  }

  /** Whatever the interleaving, every step keeps the invariant. */
  lemma StepKeepsValid(sizes: seq<int>, s: Pool, step: Step)
    requires Valid(sizes, s) && Enabled(s, step)
    ensures Valid(sizes, Next(sizes, s, step))
  {
    StepKeepsTasks(sizes, s, step);
    StepKeepsControl(sizes, s, step);
    StepKeepsAccounts(sizes, s, step);
  }

  lemma {:induction false} RunIsValid(sizes: seq<int>, concurrency: int, steps: seq<Step>)
    requires Run(sizes, concurrency, steps).Some?
    ensures Valid(sizes, Run(sizes, concurrency, steps).value)
  {
    if steps == [] {
      StartIsValid(sizes, concurrency);
    } else {
      var init := steps[..|steps| - 1];
      RunIsValid(sizes, concurrency, init);
      StepKeepsValid(sizes, Run(sizes, concurrency, init).value, steps[|steps| - 1]);
    }
  }

  /** In every reachable state each task was started at most once, ended at most
      as often, and the byte counter is the sum of what the tasks reported last. */
  lemma AtMostOnceAndAccounted(sizes: seq<int>, concurrency: int, steps: seq<Step>)
    requires Run(sizes, concurrency, steps).Some?
    ensures var s := Run(sizes, concurrency, steps).value;
            && (forall i :: 0 <= i < |sizes| ==>
                  s.tasks[i].successes + s.tasks[i].failures <= s.tasks[i].starts <= 1)
            && s.completedBytes == SumOfReports(s.tasks)
            && s.completedFiles == Successes(s.tasks)
  {
    RunIsValid(sizes, concurrency, steps);
    var s := Run(sizes, concurrency, steps).value;
    forall i | 0 <= i < |sizes|
      ensures s.tasks[i].successes + s.tasks[i].failures <= s.tasks[i].starts <= 1
    {
      assert i < s.next ==> TaskValid(sizes[i], s, i);
    }
  }

  /** The counters the pool shares between workers, with one array element per
      task. The lock makes a report one step. */
  class Meter {
    const reportedBytes: array<int>
    var completedBytes: int
    var completedFiles: nat

    constructor (tasks: nat)
      ensures fresh(reportedBytes) && reportedBytes.Length == tasks && completedBytes == 0 && completedFiles == 0
      ensures forall i :: 0 <= i < tasks ==> reportedBytes[i] == 0
    {
      reportedBytes := new int[tasks](_ => 0);
      completedBytes, completedFiles := 0, 0;
    }

    /** The counters are those of a pool state. */
    ghost predicate Shows(s: Pool)
      reads this, reportedBytes
    {
      && reportedBytes.Length == |s.tasks|
      && (forall i :: 0 <= i < |s.tasks| ==> reportedBytes[i] == s.tasks[i].reported)
      && completedBytes == s.completedBytes && completedFiles == s.completedFiles
    }

    /** A progress report of a worker, or the report of its task's success. */
    method Report(sizes: seq<int>, ghost s: Pool, ghost w: nat, index: nat, bytes: int, fileCompleted: bool)
      requires Shows(s) && |sizes| == |s.tasks| && IsRunning(s, w) && s.workers[w].task == index
      requires s.ending.None? && (fileCompleted ==> bytes == sizes[index])
      modifies this, reportedBytes
      ensures Shows(Next(sizes, s, if fileCompleted then Succeed(w) else Step.Report(w, bytes)))
    {
      var current := if bytes < 0 then 0 else bytes;
      var delta := current - reportedBytes[index];
      reportedBytes[index] := current;
      completedBytes := completedBytes + delta;
      if fileCompleted {
        completedFiles := completedFiles + 1;
      }
    }
  }

  // ----- No stuck state, and an end

  /** While tasks end, the pool is never stuck: before it returns, a step other
      than a progress report or the caller's cancellation is possible. */
  lemma NeverStuck(sizes: seq<int>, concurrency: int, steps: seq<Step>) returns (step: Step)
    requires Run(sizes, concurrency, steps).Some? && Run(sizes, concurrency, steps).value.ending.None?
    ensures Enabled(Run(sizes, concurrency, steps).value, step)
    ensures !step.Report? && !step.CancelParent?
  {
    RunIsValid(sizes, concurrency, steps);
    step := UsefulStep(sizes, Run(sizes, concurrency, steps).value);
  }

  lemma UsefulStep(sizes: seq<int>, s: Pool) returns (step: Step)
    requires Valid(sizes, s) && s.ending.None?
    ensures Enabled(s, step) && !step.Report? && !step.CancelParent?
  {
    if w :| 0 <= w < |s.workers| && s.workers[w] != Exited {
      match s.workers[w]
      case Running(_) => step := Succeed(w);
      case Cancelling => step := Cancel(w);
      case Idle =>
        step := if s.closed then Leave(w) else if s.next < |s.tasks| then Hand(w) else Close;
    } else if s.closed {
      step := Return;
    } else {
      step := Close;
      assert s.next < |s.tasks| ==> s.workers[0] == Exited;
    }
  }

  function Weight(w: Worker): nat {
    match w
    case Exited => 0
    case Idle => 1
    case Cancelling => 1
    case Running(_) => 2
  }

  function Weights(workers: seq<Worker>): nat {
    if workers == [] then 0 else Weights(workers[..|workers| - 1]) + Weight(workers[|workers| - 1])
  }

  lemma {:induction false} WeightsAfterUpdate(workers: seq<Worker>, w: nat, state: Worker)
    requires w < |workers|
    ensures Weights(workers[w := state]) == Weights(workers) - Weight(workers[w]) + Weight(state)
  {
    var n := |workers| - 1;
    if w == n {
      assert workers[w := state][..n] == workers[..n];
    } else {
      WeightsAfterUpdate(workers[..n], w, state);
      assert workers[w := state][..n] == workers[..n][w := state];
    }
  }

  /** How many steps other than progress reports are left at most. */
  function Remaining(s: Pool): int {
    2 * (|s.tasks| - s.next) + Weights(s.workers) + (if s.closed then 0 else 1)
    + (if s.parentCancelled then 0 else 1) + (if s.ending.Some? then 0 else 1)
  }

  lemma StepUsesUp(sizes: seq<int>, s: Pool, step: Step)
    requires |sizes| == |s.tasks| && Enabled(s, step)
    ensures Remaining(Next(sizes, s, step)) + (if step.Report? then 0 else 1) <= Remaining(s)
  {
    match step
    case Hand(w) => WeightsAfterUpdate(s.workers, w, Running(s.next));
    case Succeed(w) => WeightsAfterUpdate(s.workers, w, Idle);
    case Fail(w) =>
      WeightsAfterUpdate(s.workers, w, Cancelling);
      WeightsAfterUpdate(s.workers, w, Exited);
    case Cancel(w) => WeightsAfterUpdate(s.workers, w, Exited);
    case Leave(w) => WeightsAfterUpdate(s.workers, w, Exited);
    case _ =>
  }

  function ProperSteps(steps: seq<Step>): nat {
    if steps == [] then 0
    else ProperSteps(steps[..|steps| - 1]) + if steps[|steps| - 1].Report? then 0 else 1
  }

  lemma {:induction false} IdleWeights(workers: seq<Worker>)
    requires forall w :: 0 <= w < |workers| ==> workers[w] == Idle
    ensures Weights(workers) == |workers|
  {
    if workers != [] {
      IdleWeights(workers[..|workers| - 1]);
    }
  }

  lemma {:induction false} RunUsesUp(sizes: seq<int>, concurrency: int, steps: seq<Step>)
    requires Run(sizes, concurrency, steps).Some?
    ensures ProperSteps(steps) + Remaining(Run(sizes, concurrency, steps).value)
            <= 2 * |sizes| + WorkerCount(concurrency, |sizes|) + 3
  {
    if steps == [] {
      IdleWeights(Start(sizes, concurrency).workers);
    } else {
      var init := steps[..|steps| - 1];
      RunUsesUp(sizes, concurrency, init);
      StepUsesUp(sizes, Run(sizes, concurrency, init).value, steps[|steps| - 1]);
    }
  }

  /** No run is longer than this, progress reports aside; with NeverStuck, every
      pool whose tasks end returns. */
  lemma RunsAreBounded(sizes: seq<int>, concurrency: int, steps: seq<Step>)
    requires Run(sizes, concurrency, steps).Some?
    ensures ProperSteps(steps) <= 2 * |sizes| + WorkerCount(concurrency, |sizes|) + 3
  {
    RunIsValid(sizes, concurrency, steps);
    RunUsesUp(sizes, concurrency, steps);
  }

  // ----- What the result means

  function Clamped(sizes: seq<int>): seq<int> {
    seq(|sizes|, i requires 0 <= i < |sizes| => Clamp(sizes[i]))
  }

  lemma {:induction false} AllSucceeded(sizes: seq<int>, tasks: seq<Task>)
    requires |sizes| == |tasks|
    requires forall i :: 0 <= i < |tasks| ==> tasks[i].successes == 1 && tasks[i].reported == Clamp(sizes[i])
    ensures Successes(tasks) == |tasks| && SumOfReports(tasks) == Total(Clamped(sizes))
  {
    if tasks != [] {
      var n := |tasks| - 1;
      AllSucceeded(sizes[..n], tasks[..n]);
      assert Clamped(sizes)[..n] == Clamped(sizes[..n]);
    }
  }

  /** A result without an error means that every task was started once and
      succeeded once, with the counters at their totals. A task error means that
      this task failed, and every failure leads to a task error. The context's
      error means that the caller cancelled and nothing failed. */
  lemma ResultMeaning(sizes: seq<int>, concurrency: int, steps: seq<Step>)
    requires Run(sizes, concurrency, steps).Some? && Run(sizes, concurrency, steps).value.ending.Some?
    ensures var s := Run(sizes, concurrency, steps).value;
            match s.ending.value
            case Completed =>
              && (forall i :: 0 <= i < |sizes| ==>
                    s.tasks[i].starts == 1 && s.tasks[i].successes == 1 && s.tasks[i].failures == 0)
              && s.completedFiles == |sizes| && s.completedBytes == Total(Clamped(sizes))
              && !s.parentCancelled
            case TaskFailed(i) => i < |sizes| && s.tasks[i].failures == 1
            case ContextDone =>
              s.parentCancelled && forall i :: 0 <= i < |sizes| ==> s.tasks[i].failures == 0
  {
    RunIsValid(sizes, concurrency, steps);
    var s := Run(sizes, concurrency, steps).value;
    if s.ending == Some(Completed) {
      forall i | 0 <= i < |sizes|
        ensures s.tasks[i].starts == 1 && s.tasks[i].successes == 1 && s.tasks[i].failures == 0
        ensures s.tasks[i].reported == Clamp(sizes[i])
      {
        assert TaskValid(sizes[i], s, i);
      }
      AllSucceeded(sizes, s.tasks);
    }
  }

  lemma {:induction false} ClampedTotal(sizes: seq<int>)
    ensures Total(Clamped(sizes)) >= Total(sizes)
    ensures Total(Clamped(sizes)) == Total(sizes) <==> forall i :: 0 <= i < |sizes| ==> sizes[i] >= 0
  {
    if sizes != [] {
      var n := |sizes| - 1;
      ClampedTotal(sizes[..n]);
      assert Clamped(sizes)[..n] == Clamped(sizes[..n]);
      assert forall i :: 0 <= i < n ==> sizes[..n][i] == sizes[i];
      assert Clamped(sizes)[n] == Clamp(sizes[n]);
    }
  }

  /** A completed transfer shows exactly the announced total when no task has a
      negative size, and only then: negative sizes lower the total but are
      reported as nothing. */
  lemma CompletedBytesAreTheTotal(sizes: seq<int>, concurrency: int, steps: seq<Step>)
    requires Run(sizes, concurrency, steps).Some?
    requires Run(sizes, concurrency, steps).value.ending == Some(Completed)
    ensures Run(sizes, concurrency, steps).value.completedBytes == Total(sizes)
            <==> forall i :: 0 <= i < |sizes| ==> sizes[i] >= 0
  {
    ResultMeaning(sizes, concurrency, steps);
    ClampedTotal(sizes);
  }

  // ----- Concurrency and the first failure

  lemma LastStep(sizes: seq<int>, concurrency: int, steps: seq<Step>) returns (s: Pool)
    requires steps != [] && Run(sizes, concurrency, steps).Some?
    ensures Run(sizes, concurrency, steps[..|steps| - 1]) == Some(s) && |s.tasks| == |sizes|
    ensures Enabled(s, steps[|steps| - 1])
    ensures Run(sizes, concurrency, steps) == Some(Next(sizes, s, steps[|steps| - 1]))
  {
    s := Run(sizes, concurrency, steps[..|steps| - 1]).value;
  }

  lemma StepKeepsFailure(sizes: seq<int>, s: Pool, step: Step)
    requires |sizes| == |s.tasks| && Enabled(s, step)
    ensures s.failure.Some? ==> Next(sizes, s, step).failure == s.failure
    ensures !step.Fail? ==> Next(sizes, s, step).failure == s.failure
    ensures |Next(sizes, s, step).workers| == |s.workers|
  {
  }

  lemma {:induction false} WorkersStayMany(sizes: seq<int>, concurrency: int, steps: seq<Step>)
    requires Run(sizes, concurrency, steps).Some?
    ensures |Run(sizes, concurrency, steps).value.workers| == WorkerCount(concurrency, |sizes|)
  {
    if steps != [] {
      var s := LastStep(sizes, concurrency, steps);
      WorkersStayMany(sizes, concurrency, steps[..|steps| - 1]);
      StepKeepsFailure(sizes, s, steps[|steps| - 1]);
    }
  }

  /** There are as many workers as asked for, at least one and no more than tasks;
      and tasks that have started and not ended are in the hands of different ones. */
  lemma ConcurrencyIsBounded(sizes: seq<int>, concurrency: int, steps: seq<Step>)
    requires Run(sizes, concurrency, steps).Some?
    ensures var s := Run(sizes, concurrency, steps).value;
            && |s.workers| == (if concurrency <= 1 then (if sizes == [] then 0 else 1)
                               else if concurrency < |sizes| then concurrency else |sizes|)
            && forall i, j :: 0 <= i < j < |sizes|
                              && s.tasks[i].starts == 1 && s.tasks[i].successes == s.tasks[i].failures == 0
                              && s.tasks[j].starts == 1 && s.tasks[j].successes == s.tasks[j].failures == 0 ==>
                              s.tasks[i].worker != s.tasks[j].worker && s.tasks[i].worker < |s.workers|
  {
    WorkersStayMany(sizes, concurrency, steps);
    RunIsValid(sizes, concurrency, steps);
    var s := Run(sizes, concurrency, steps).value;
    forall i | 0 <= i < |sizes| && s.tasks[i].starts == 1 && s.tasks[i].successes == s.tasks[i].failures == 0
      ensures Is(s, s.tasks[i].worker, Running(i))
    {
      assert i < s.next;
      assert TaskValid(sizes[i], s, i);
    }
  }

  /** Every worker that has not left can go on: a running task may report, succeed
      or fail at any time, an idle worker takes the next task while the queue is
      open and leaves once it is closed; and the caller may cancel at any time. */
  lemma EachCanGoOn(sizes: seq<int>, concurrency: int, steps: seq<Step>, w: nat, bytes: int)
    requires Run(sizes, concurrency, steps).Some? && Run(sizes, concurrency, steps).value.ending.None?
    requires w < |Run(sizes, concurrency, steps).value.workers|
    ensures var s := Run(sizes, concurrency, steps).value;
            && (match s.workers[w]
                case Running(_) => Enabled(s, Step.Report(w, bytes)) && Enabled(s, Succeed(w)) && Enabled(s, Fail(w))
                case Cancelling => Enabled(s, Cancel(w))
                case Idle => (s.closed ==> Enabled(s, Leave(w)))
                             && (!s.closed && s.next < |sizes| ==> Enabled(s, Hand(w)))
                             && (!s.closed && s.next == |sizes| ==> Enabled(s, Close))
                case Exited => true)
            && (!s.closed && s.cancelled ==> Enabled(s, Close))
            && (!s.parentCancelled ==> Enabled(s, CancelParent))
  {
    RunIsValid(sizes, concurrency, steps);
  }

  lemma {:induction false} NoFailureYet(sizes: seq<int>, concurrency: int, steps: seq<Step>)
    requires Run(sizes, concurrency, steps).Some? && forall i :: 0 <= i < |steps| ==> !steps[i].Fail?
    ensures Run(sizes, concurrency, steps).value.failure == None
  {
    if steps != [] {
      var s := LastStep(sizes, concurrency, steps);
      NoFailureYet(sizes, concurrency, steps[..|steps| - 1]);
      StepKeepsFailure(sizes, s, steps[|steps| - 1]);
    }
  }

  lemma {:induction false} FailureStays(sizes: seq<int>, concurrency: int, steps: seq<Step>, k: nat)
    requires Run(sizes, concurrency, steps).Some? && k <= |steps|
    ensures Run(sizes, concurrency, steps[..k]).Some?
    ensures var mid := Run(sizes, concurrency, steps[..k]).value;
            mid.failure.Some? ==> Run(sizes, concurrency, steps).value.failure == mid.failure
    decreases |steps|
  {
    if k == |steps| {
      assert steps[..k] == steps;
    } else {
      var s := LastStep(sizes, concurrency, steps);
      FailureStays(sizes, concurrency, steps[..|steps| - 1], k);
      StepKeepsFailure(sizes, s, steps[|steps| - 1]);
      assert steps[..|steps| - 1][..k] == steps[..k];
    }
  }

  /** The error returned is that of the task that failed first, whatever fails or is
      cancelled later. */
  lemma FirstFailureIsReturned(sizes: seq<int>, concurrency: int, steps: seq<Step>, k: nat)
    requires Run(sizes, concurrency, steps).Some? && k < |steps| && steps[k].Fail?
    requires forall i :: 0 <= i < k ==> !steps[i].Fail?
    ensures Run(sizes, concurrency, steps[..k]).Some?
    ensures IsRunning(Run(sizes, concurrency, steps[..k]).value, steps[k].worker)
    ensures var task := Run(sizes, concurrency, steps[..k]).value.workers[steps[k].worker].task;
            var s := Run(sizes, concurrency, steps).value;
            s.ending.Some? ==> s.ending.value == TaskFailed(task)
  {
    FailureStays(sizes, concurrency, steps, k);
    FailureStays(sizes, concurrency, steps, k + 1);
    assert steps[..k + 1][..k] == steps[..k];
    NoFailureYet(sizes, concurrency, steps[..k]);
    RunIsValid(sizes, concurrency, steps);
  }
}
