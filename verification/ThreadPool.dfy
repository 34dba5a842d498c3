/** The queue of tasks and the worker loop of include/threadpool.hpp. Everything a worker does between getting
    the mutex and giving it up (by running a task, waiting or leaving) is one critical section. */
module ThreadPool {
  import opened Counting

  /** Tasks are named by numbers. */
  type Task = nat

  // ----- The shared pool and its critical sections -----

  /** What a critical section of the worker loop ends with. */
  datatype Next = RunTask(task: Task) | Leave | Sleep

  function NextOf(status: bool, tasks: seq<Task>): Next {
    if tasks != [] then RunTask(tasks[0]) else if !status then Leave else Sleep
  }

  function TasksAfter(tasks: seq<Task>): seq<Task> {
    if tasks != [] then tasks[1..] else tasks
  }

  class Pool {
    var status: bool
    var tasks: seq<Task>

    constructor ()
      ensures status && tasks == []
    {
      status, tasks := true, [];
    }

    /** One pass of the worker loop. */
    method WorkerSection() returns (next: Next)
      modifies this`tasks
      ensures next == NextOf(status, old(tasks)) && tasks == TasksAfter(old(tasks))
    {
      if tasks != [] {
        var task := tasks[0];
        tasks := tasks[1..];
        next := RunTask(task);
      } else if !status {
        next := Leave;
      } else {
        next := Sleep;
      }
    }

    /** The part of AddTask under the lock; notify_one comes after it. */
    method Push(task: Task)
      modifies this`tasks
      ensures tasks == old(tasks) + [task]
    {
      tasks := tasks + [task];
    }

    /** The part of the destructor under the lock. */
    method ShutDown()
      modifies this`status
      ensures !status
    {
      status := false;
    }
  }

  // ----- The step system -----

  datatype Worker =
    | Entering          // about to get the mutex and look at the queue
    | Waiting           // asleep in cv.wait
    | Busy(task: Task)
    | Exited

  /** `notifies` counts the calls of AddTask between their unlock and their notify_one. `added`,
      `taken` and `finished` are the history. */
  datatype State = State(status: bool, tasks: seq<Task>, workers: seq<Worker>, notifies: nat,
                         added: seq<Task>, taken: seq<Task>, finished: multiset<Task>)

  datatype Step =
    | Add(task: Task)         // AddTask up to its unlock
    | Notify(woken: nat)      // notify_one; `woken` matters only if somebody waits
    | Section(w: nat)         // a worker's critical section
    | Finish(w: nat)          // a worker's task returns
    | Spurious(w: nat)        // a worker wakes without being notified
    | ShutDown                // the destructor, with its notify_all

  const IsWaiting: Worker -> bool := (w: Worker) => w.Waiting?
  const IsEntering: Worker -> bool := (w: Worker) => w.Entering?
  const IsExited: Worker -> bool := (w: Worker) => w.Exited?

  ghost predicate SomebodyWaits(s: State) {
    Count(s.workers, IsWaiting) > 0
  }

  ghost predicate Enabled(s: State, step: Step) {
    match step
    case Add(_) => s.status
    case Notify(w) => s.notifies > 0 && (SomebodyWaits(s) ==> w < |s.workers| && s.workers[w].Waiting?)
    case Section(w) => w < |s.workers| && s.workers[w].Entering?
    case Finish(w) => w < |s.workers| && s.workers[w].Busy?
    case Spurious(w) => w < |s.workers| && s.workers[w].Waiting?
    case ShutDown => s.status
  }

  function Awake(workers: seq<Worker>): (r: seq<Worker>)
    ensures |r| == |workers|
    ensures forall i :: 0 <= i < |r| ==> r[i] == if workers[i].Waiting? then Entering else workers[i]
  {
    if workers == [] then []
    else [if workers[0].Waiting? then Entering else workers[0]] + Awake(workers[1..])
  }

  function AfterSection(next: Next): Worker {
    match next
    case RunTask(t) => Busy(t)
    case Leave => Exited
    case Sleep => Waiting
  }

  ghost function Apply(s: State, step: Step): State
    requires Enabled(s, step)
  {
    match step
    case Add(task) => s.(tasks := s.tasks + [task], notifies := s.notifies + 1, added := s.added + [task])
    case Notify(w) =>
      s.(notifies := s.notifies - 1, workers := if SomebodyWaits(s) then s.workers[w := Entering] else s.workers)
    case Section(w) =>
      var next := NextOf(s.status, s.tasks);
      s.(tasks := TasksAfter(s.tasks), workers := s.workers[w := AfterSection(next)],
         taken := if next.RunTask? then s.taken + [next.task] else s.taken)
    case Finish(w) =>
      s.(workers := s.workers[w := Entering], finished := s.finished + multiset{s.workers[w].task})
    case Spurious(w) => s.(workers := s.workers[w := Entering])
    case ShutDown => s.(status := false, workers := Awake(s.workers))
  }

  ghost predicate Initial(s: State) {
    && s.status && s.tasks == [] && s.notifies == 0
    && s.added == [] && s.taken == [] && s.finished == multiset{}
    && forall i :: 0 <= i < |s.workers| ==> s.workers[i] == Entering
  }

  ghost function Held(w: Worker): multiset<Task> {
    if w.Busy? then multiset{w.task} else multiset{}
  }

  /** What is being run. */
  ghost function Running(workers: seq<Worker>): multiset<Task> {
    if workers == [] then multiset{} else Held(workers[0]) + Running(workers[1..])
  }

  lemma {:induction false} RunningUpdate(workers: seq<Worker>, i: nat, x: Worker)
    requires i < |workers|
    ensures Running(workers[i := x]) + Held(workers[i]) == Running(workers) + Held(x)
    ensures !workers[i].Busy? ==> Running(workers[i := x]) == Running(workers) + Held(x)
    ensures !x.Busy? ==> Running(workers[i := x]) + Held(workers[i]) == Running(workers)
  {
    var rest := Running(workers[1..]);
    if i > 0 {
      RunningUpdate(workers[1..], i - 1, x);
      assert workers[i := x][1..] == workers[1..][i - 1 := x];
      BothGrow(Held(workers[0]), Running(workers[1..][i - 1 := x]), Held(workers[i]), rest, Held(x));
    } else {
      assert workers[i := x][1..] == workers[1..];
      Swapped(Held(x), rest, Held(workers[0]));
    }
    hide Running;
    NothingHeld(Running(workers[i := x]));
    NothingHeld(Running(workers));
  }

  lemma BothGrow(more: multiset<Task>, a: multiset<Task>, b: multiset<Task>, c: multiset<Task>, d: multiset<Task>)
    requires a + b == c + d
    ensures (more + a) + b == (more + c) + d
  {
    forall t ensures ((more + a) + b)[t] == ((more + c) + d)[t] {
      assert (a + b)[t] == (c + d)[t];
    }
  }

  lemma Swapped(a: multiset<Task>, rest: multiset<Task>, b: multiset<Task>)
    ensures (a + rest) + b == (b + rest) + a
  {
  }

  lemma {:induction false} RunningAwake(workers: seq<Worker>)
    ensures Running(Awake(workers)) == Running(workers)
    ensures Count(Awake(workers), IsWaiting) == 0
    ensures Count(Awake(workers), IsExited) == Count(workers, IsExited)
  {
    if workers != [] {
      RunningAwake(workers[1..]);
      assert Awake(workers)[1..] == Awake(workers[1..]);
    }
  }

  // ----- The invariant -----

  /** No idle worker sleeps on available work: while somebody waits, every queued task has its
      notify_one to come or a worker about to look at the queue. */
  ghost predicate WakeupsAccounted(s: State) {
    SomebodyWaits(s) ==> |s.tasks| <= s.notifies + Count(s.workers, IsEntering)
  }

  /** Each added task was taken once, in the order of adding, or is still queued in that order; each
      taken task has finished or is being run. */
  ghost predicate TasksConserved(s: State) {
    s.added == s.taken + s.tasks && multiset(s.taken) == s.finished + Running(s.workers)
  }

  /** Nobody leaves before the shutdown or with tasks queued; nobody waits after it. */
  ghost predicate ShutdownOrderly(s: State) {
    && (Count(s.workers, IsExited) > 0 ==> !s.status && s.tasks == [])
    && (!s.status ==> !SomebodyWaits(s))
  }

  ghost predicate Inv(s: State) {
    WakeupsAccounted(s) && TasksConserved(s) && ShutdownOrderly(s)
  }

  lemma UpdateCounts(workers: seq<Worker>, w: nat, x: Worker)
    requires w < |workers|
    ensures Count(workers[w := x], IsWaiting) + (if workers[w].Waiting? then 1 else 0)
         == Count(workers, IsWaiting) + (if x.Waiting? then 1 else 0)
    ensures Count(workers[w := x], IsEntering) + (if workers[w].Entering? then 1 else 0)
         == Count(workers, IsEntering) + (if x.Entering? then 1 else 0)
    ensures Count(workers[w := x], IsExited) + (if workers[w].Exited? then 1 else 0)
         == Count(workers, IsExited) + (if x.Exited? then 1 else 0)
  {
    CountUpdate(workers, w, x, IsWaiting);
    CountUpdate(workers, w, x, IsEntering);
    CountUpdate(workers, w, x, IsExited);
  }

  lemma StepKeepsInv(s: State, step: Step)
    requires Inv(s) && Enabled(s, step)
    ensures Inv(Apply(s, step))
  {
    match step
    case Add(task) => AddKeepsInv(s, task);
    case Notify(w) =>
      if SomebodyWaits(s) {
        WakingKeepsInv(s, w);
      }
    case Section(w) => SectionKeepsInv(s, w);
    case Finish(w) => FinishKeepsInv(s, w);
    case Spurious(w) => WakingKeepsInv(s, w);
    case ShutDown => RunningAwake(s.workers);
  }

  lemma AddKeepsInv(s: State, task: Task)
    requires Inv(s) && s.status
    ensures Inv(Apply(s, Add(task)))
  {
    assert s.taken + (s.tasks + [task]) == s.added + [task];
  }

  /** Waking a worker adds one that is about to look at the queue, which is worth one notify. */
  lemma WakingKeepsInv(s: State, w: nat)
    requires Inv(s) && w < |s.workers| && s.workers[w].Waiting?
    ensures Inv(s.(workers := s.workers[w := Entering]))
    ensures s.notifies > 0 ==> Inv(s.(workers := s.workers[w := Entering], notifies := s.notifies - 1))
  {
    UpdateCounts(s.workers, w, Entering);
    RunningUpdate(s.workers, w, Entering);
    NothingHeld(Running(s.workers));
  }

  lemma FinishKeepsInv(s: State, w: nat)
    requires Inv(s) && Enabled(s, Finish(w))
    ensures Inv(Apply(s, Finish(w)))
  {
    UpdateCounts(s.workers, w, Entering);
    RunningUpdate(s.workers, w, Entering);
  }

  lemma SectionKeepsInv(s: State, w: nat)
    requires Inv(s) && Enabled(s, Section(w))
    ensures Inv(Apply(s, Section(w)))
  {
    SectionConserves(s, w);
    SectionKeepsAccount(s, w);
    SectionKeepsOrder(s, w);
    hide TasksConserved, WakeupsAccounted, ShutdownOrderly, Apply;
  }

  lemma SectionKeepsAccount(s: State, w: nat)
    requires WakeupsAccounted(s) && Enabled(s, Section(w))
    ensures WakeupsAccounted(Apply(s, Section(w)))
  {
    hide Count;
    UpdateCounts(s.workers, w, AfterSection(NextOf(s.status, s.tasks)));
  }

  lemma SectionKeepsOrder(s: State, w: nat)
    requires ShutdownOrderly(s) && Enabled(s, Section(w))
    ensures ShutdownOrderly(Apply(s, Section(w)))
  {
    hide Count;
    UpdateCounts(s.workers, w, AfterSection(NextOf(s.status, s.tasks)));
  }

  lemma SectionConserves(s: State, w: nat)
    requires TasksConserved(s) && Enabled(s, Section(w))
    ensures TasksConserved(Apply(s, Section(w)))
  {
    var next := NextOf(s.status, s.tasks);
    RunningUpdate(s.workers, w, AfterSection(next));
    if next.RunTask? {
      HeadMoves(s.taken, s.tasks, s.finished, Running(s.workers));
    } else {
      NothingHeld(Running(s.workers));
    }
  }

  /** The oldest queued task becomes the last one taken and is being run. */
  lemma HeadMoves(taken: seq<Task>, tasks: seq<Task>, finished: multiset<Task>, running: multiset<Task>)
    requires tasks != [] && multiset(taken) == finished + running
    ensures taken + tasks == (taken + [tasks[0]]) + tasks[1..]
    ensures multiset(taken + [tasks[0]]) == finished + (running + multiset{tasks[0]})
  {
  }

  lemma NothingHeld(running: multiset<Task>)
    ensures running + multiset{} == running
  {
  }

  lemma {:induction false} AllEntering(workers: seq<Worker>)
    requires forall i :: 0 <= i < |workers| ==> workers[i] == Entering
    ensures Count(workers, IsWaiting) == Count(workers, IsExited) == 0 && Running(workers) == multiset{}
  {
    if workers != [] {
      AllEntering(workers[1..]);
    }
  }

  lemma InitialInv(s: State)
    requires Initial(s)
    ensures Inv(s)
  {
    AllEntering(s.workers);
  }

  // ----- Runs -----

  ghost predicate Runnable(s: State, steps: seq<Step>)
    decreases |steps|
  {
    steps == [] || (Enabled(s, steps[0]) && Runnable(Apply(s, steps[0]), steps[1..]))
  }

  ghost function After(s: State, steps: seq<Step>): State
    requires Runnable(s, steps)
    decreases |steps|
  {
    if steps == [] then s else After(Apply(s, steps[0]), steps[1..])
  }

  lemma {:induction false} RunKeepsInv(s: State, steps: seq<Step>)
    requires Inv(s) && Runnable(s, steps)
    ensures Inv(After(s, steps)) && |After(s, steps).workers| == |s.workers|
    decreases |steps|
  {
    hide Inv, Enabled, Apply;
    if steps != [] {
      StepKeepsInv(s, steps[0]);
      StepKeepsWorkers(s, steps[0]);
      RunKeepsInv(Apply(s, steps[0]), steps[1..]);
    }
  }

  lemma StepKeepsWorkers(s: State, step: Step)
    requires Enabled(s, step)
    ensures |Apply(s, step).workers| == |s.workers|
  {
  }

  ghost predicate Reachable(s: State) {
    exists start, steps :: Initial(start) && Runnable(start, steps) && After(start, steps) == s
  }

  lemma ReachableInv(s: State)
    requires Reachable(s)
    ensures Inv(s)
  {
    hide Inv, Initial;
    var start, steps :| Initial(start) && Runnable(start, steps) && After(start, steps) == s;
    InitialInv(start);
    RunKeepsInv(start, steps);
  }

  /** No wakeup is lost although notify_one comes after the unlock: once every notify_one is out and
      no worker is about to look at the queue, a waiting worker means an empty queue. */
  lemma NoLostWakeup(s: State, w: nat)
    requires Reachable(s) && w < |s.workers| && s.workers[w].Waiting?
    requires s.notifies == 0 && forall i :: 0 <= i < |s.workers| ==> !s.workers[i].Entering?
    ensures s.tasks == []
  {
    ReachableInv(s);
    CountedIsThere(s.workers, w, IsWaiting);
    if Count(s.workers, IsEntering) > 0 {
      var i := CountedSomewhere(s.workers, IsEntering);
    }
  }

  /** A worker that wakes, notified or not, looks at the queue again, and nothing else happens. */
  lemma WakingOnlyWakes(s: State, w: nat)
    requires w < |s.workers| && s.workers[w].Waiting?
    ensures Enabled(s, Spurious(w)) && Apply(s, Spurious(w)) == s.(workers := s.workers[w := Entering])
    ensures Enabled(Apply(s, Spurious(w)), Section(w))
  {
  }

  /** Tasks leave the queue in the order in which they came, each once. */
  lemma FirstInFirstOut(s: State)
    requires Reachable(s)
    ensures |s.taken| <= |s.added|
    ensures s.taken == s.added[..|s.taken|] && s.tasks == s.added[|s.taken|..]
    ensures multiset(s.taken) == s.finished + Running(s.workers)
  {
    ReachableInv(s);
  }

  // ----- The drain after shutdown -----

  const Work: Worker -> nat := (w: Worker) => if w.Busy? then 2 else if w.Entering? then 1 else 0

  ghost function Remaining(s: State): nat {
    3 * |s.tasks| + Sum(s.workers, Work) + s.notifies
  }

  lemma DrainStep(s: State, step: Step)
    requires Inv(s) && !s.status && Enabled(s, step)
    ensures Remaining(Apply(s, step)) < Remaining(s) && !Apply(s, step).status && Apply(s, step).added == s.added
  {
    match step
    case Notify(w) =>
    case Section(w) => SumUpdate(s.workers, w, AfterSection(NextOf(s.status, s.tasks)), Work);
    case Finish(w) => SumUpdate(s.workers, w, Entering, Work);
    case Spurious(w) => CountedIsThere(s.workers, w, IsWaiting);
  }

  /** After the shutdown no run is longer than a bound known at the shutdown. */
  lemma {:induction false} DrainTerminates(s: State, steps: seq<Step>)
    requires Inv(s) && !s.status && Runnable(s, steps)
    ensures |steps| + Remaining(After(s, steps)) <= Remaining(s)
    ensures !After(s, steps).status && After(s, steps).added == s.added
    decreases |steps|
  {
    if steps != [] {
      DrainStep(s, steps[0]);
      StepKeepsInv(s, steps[0]);
      DrainTerminates(Apply(s, steps[0]), steps[1..]);
    }
  }

  /** Where no step is left to take after the shutdown, every worker has left and every task ever
      added has been run to its end. */
  lemma DrainCompletes(s: State)
    requires Reachable(s) && !s.status && |s.workers| > 0
    requires forall step :: !Enabled(s, step)
    ensures forall i :: 0 <= i < |s.workers| ==> s.workers[i] == Exited
    ensures s.tasks == [] && s.finished == multiset(s.added)
  {
    ReachableInv(s);
    forall w: nat | w < |s.workers| ensures s.workers[w] == Exited {
      assert !Enabled(s, Section(w)) && !Enabled(s, Finish(w)) && !Enabled(s, Spurious(w));
    }
    CountedIsThere(s.workers, 0, IsExited);
    ExitedRunNothing(s.workers);
    assert s.taken + [] == s.taken;
  }

  lemma {:induction false} ExitedRunNothing(workers: seq<Worker>)
    requires forall i :: 0 <= i < |workers| ==> workers[i] == Exited
    ensures Running(workers) == multiset{}
  {
    if workers != [] {
      ExitedRunNothing(workers[1..]);
    }
  }
}
