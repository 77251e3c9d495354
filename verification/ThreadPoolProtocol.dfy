/** The thread pool of base/thread_pool.h as a transition system. A section under `mutex_` is one
    step (ThreadPoolLocking shows that this is what the statements amount to); notifications are
    issued after the lock is released, so they are steps of their own, and a waiting worker may
    also wake for no reason. */
module ThreadPoolProtocol {
  import opened Sums
  import opened Wrappers

  /** Stands for the closure given to AddTask. */
  type Task = nat

  datatype Worker =
    | AtTop                // about to lock and look at the predicate
    | Asleep               // in cond_.wait
    | Running(task: Task)
    | Exited

  /** `ones` and `alls` count the notify_one and notify_all calls still to come. `accepted`, `taken`
      and `finished` are history variables. */
  datatype Pool = Pool(
    stop: bool, queue: seq<Task>, workers: seq<Worker>, ones: nat, alls: nat,
    accepted: seq<Task>, taken: seq<Task>, finished: seq<Task>)

  /** After Init(n). */
  ghost predicate Init(s: Pool) {
    && s == Pool(false, [], s.workers, 0, 0, [], [], [])
    && |s.workers| >= 1
    && forall i :: 0 <= i < |s.workers| ==> s.workers[i] == AtTop
  }

  datatype Step =
    | AddTask(task: Task)
    | Stop
    | NotifyOne(woken: Option<nat>)
    | NotifyAll
    | Enter(i: nat)
    | Finish(i: nat)
    | WakeForNoReason(i: nat)

  predicate SomeAsleep(ws: seq<Worker>) {
    Asleep in ws
  }

  predicate Enabled(s: Pool, step: Step) {
    match step
    case AddTask(_) => !s.stop
    case Stop => true
    case NotifyOne(woken) =>
      && s.ones > 0
      && (if woken.Some? then woken.value < |s.workers| && s.workers[woken.value].Asleep?
          else !SomeAsleep(s.workers))
    case NotifyAll => s.alls > 0
    case Enter(i) => i < |s.workers| && s.workers[i].AtTop?
    case Finish(i) => i < |s.workers| && s.workers[i].Running?
    case WakeForNoReason(i) => i < |s.workers| && s.workers[i].Asleep?
  }

  function WakeAll(ws: seq<Worker>): (r: seq<Worker>)
    ensures |r| == |ws|
    ensures forall i :: 0 <= i < |ws| ==> r[i] == if ws[i].Asleep? then AtTop else ws[i]
  {
    seq(|ws|, i requires 0 <= i < |ws| => if ws[i].Asleep? then AtTop else ws[i])
  }

  /** A worker at the top: sleep while there is nothing to do, exit when stopped and drained,
      otherwise take the oldest task. */
  function EnterStep(s: Pool, i: nat): Pool
    requires i < |s.workers|
  {
    if !s.stop && s.queue == [] then s.(workers := s.workers[i := Asleep])
    else if s.queue == [] then s.(workers := s.workers[i := Exited])
    else s.(workers := s.workers[i := Running(s.queue[0])],
            queue := s.queue[1..],
            taken := s.taken + [s.queue[0]])
  }

  function Next(s: Pool, step: Step): Pool
    requires Enabled(s, step)
  {
    match step
    case AddTask(task) => s.(queue := s.queue + [task], ones := s.ones + 1, accepted := s.accepted + [task])
    case Stop => s.(stop := true, alls := s.alls + 1)
    case NotifyOne(woken) =>
      s.(ones := s.ones - 1,
         workers := if woken.Some? then s.workers[woken.value := AtTop] else s.workers)
    case NotifyAll => s.(alls := s.alls - 1, workers := WakeAll(s.workers))
    case Enter(i) => EnterStep(s, i)
    case Finish(i) => s.(workers := s.workers[i := AtTop], finished := s.finished + [s.workers[i].task])
    case WakeForNoReason(i) => s.(workers := s.workers[i := AtTop])
  }

  ghost predicate Reaches(s: Pool, steps: seq<Step>, t: Pool)
    decreases |steps|
  {
    if steps == [] then s == t
    else Enabled(s, steps[0]) && Reaches(Next(s, steps[0]), steps[1..], t)
  }

  lemma {:induction false} ReachesJoined(s: Pool, first: seq<Step>, t: Pool, rest: seq<Step>, u: Pool)
    requires Reaches(s, first, t) && Reaches(t, rest, u)
    ensures Reaches(s, first + rest, u)
    decreases |first|
  {
    if first == [] {
      assert first + rest == rest;
    } else {
      assert (first + rest)[1..] == first[1..] + rest;
      hide Enabled, Next;
      ReachesJoined(Next(s, first[0]), first[1..], t, rest, u);
    }
  }

  ghost predicate Reachable(s: Pool) {
    exists s0, steps :: Init(s0) && Reaches(s0, steps, s)
  }

  // ------------------------------------------------------------------ what the workers hold

  function WeighTop(w: Worker): nat {
    if w.AtTop? then 1 else 0
  }

  /** How many workers are about to look for a task. */
  function TopCount(ws: seq<Worker>): nat {
    Sum(WeighTop, ws)
  }

  /** Counts the workers that are running this task. */
  function Runs(task: Task): Worker -> nat {
    w => if w == Running(task) then 1 else 0
  }

  // ------------------------------------------------------------------ invariants

  /** While anybody sleeps, every queued task has a notification or an awake worker of its own. */
  ghost predicate NoLostWakeup(s: Pool) {
    SomeAsleep(s.workers) ==> |s.queue| <= s.ones + TopCount(s.workers)
  }

  ghost predicate StopIsHeard(s: Pool) {
    s.stop && SomeAsleep(s.workers) ==> s.alls > 0
  }

  ghost predicate ExitedOnlyWhenDrained(s: Pool) {
    Exited in s.workers ==> s.stop && s.queue == []
  }

  ghost predicate Fifo(s: Pool) {
    s.accepted == s.taken + s.queue
  }

  ghost predicate EachTakenRunsOnce(s: Pool) {
    forall task: Task :: RunsOnce(s, task)
  }

  ghost predicate Inv(s: Pool) {
    && |s.workers| >= 1
    && NoLostWakeup(s)
    && StopIsHeard(s)
    && ExitedOnlyWhenDrained(s)
    && Fifo(s)
    && EachTakenRunsOnce(s)
  }

  lemma InitInv(s: Pool)
    requires Init(s)
    ensures Inv(s)
  {
    forall task: Task ensures RunsOnce(s, task) {
      SumZero(Runs(task), s.workers);
    }
  }

  lemma StepKeepsWakeups(s: Pool, step: Step)
    requires NoLostWakeup(s) && StopIsHeard(s) && Enabled(s, step)
    ensures NoLostWakeup(Next(s, step)) && StopIsHeard(Next(s, step))
  {
    match step
    case NotifyOne(woken) => if woken.Some? { SumUpdate(WeighTop, s.workers, woken.value, AtTop); }
    case Enter(i) => SumUpdate(WeighTop, s.workers, i, Next(s, step).workers[i]);
    case Finish(i) => SumUpdate(WeighTop, s.workers, i, AtTop);
    case WakeForNoReason(i) => SumUpdate(WeighTop, s.workers, i, AtTop);
    case _ =>
  }

  lemma StepKeepsQueue(s: Pool, step: Step)
    requires ExitedOnlyWhenDrained(s) && Fifo(s) && Enabled(s, step)
    ensures ExitedOnlyWhenDrained(Next(s, step)) && Fifo(Next(s, step))
  {
  }

  lemma WakeAllKeepsRuns(ws: seq<Worker>, task: Task)
    ensures Sum(Runs(task), WakeAll(ws)) == Sum(Runs(task), ws)
  {
    SumGain(Runs(task), ws, WakeAll(ws), 0);
    SumGain(Runs(task), WakeAll(ws), ws, 0);
  }

  /** The task has been taken as often as it has finished or is running. */
  ghost predicate RunsOnce(s: Pool, task: Task) {
    multiset(s.taken)[task] == multiset(s.finished)[task] + Sum(Runs(task), s.workers)
  }

  lemma CountOneMore(tasks: seq<Task>, task: Task, one: Task)
    ensures multiset(tasks + [one])[task] == multiset(tasks)[task] + (if one == task then 1 else 0)
  {
    assert multiset(tasks + [one]) == multiset(tasks) + multiset{one};
  }

  lemma EnterKeepsTask(s: Pool, i: nat, task: Task)
    requires RunsOnce(s, task) && i < |s.workers| && s.workers[i].AtTop?
    ensures RunsOnce(EnterStep(s, i), task)
  {
    SumUpdate(Runs(task), s.workers, i, EnterStep(s, i).workers[i]);
    hide Sum;
    if s.queue != [] { CountOneMore(s.taken, task, s.queue[0]); }
  }

  lemma FinishKeepsTask(s: Pool, i: nat, task: Task)
    requires RunsOnce(s, task) && Enabled(s, Finish(i))
    ensures RunsOnce(Next(s, Finish(i)), task)
  {
    SumUpdate(Runs(task), s.workers, i, AtTop);
    hide Sum;
    CountOneMore(s.finished, task, s.workers[i].task);
  }

  lemma StepKeepsTask(s: Pool, step: Step, task: Task)
    requires RunsOnce(s, task) && Enabled(s, step)
    ensures RunsOnce(Next(s, step), task)
  {
    hide Sum, EnterStep;
    match step
    case NotifyOne(woken) => if woken.Some? { SumUpdate(Runs(task), s.workers, woken.value, AtTop); }
    case NotifyAll => WakeAllKeepsRuns(s.workers, task);
    case Enter(i) => EnterKeepsTask(s, i, task);
    case Finish(i) => FinishKeepsTask(s, i, task);
    case WakeForNoReason(i) => SumUpdate(Runs(task), s.workers, i, AtTop);
    case _ =>
  }

  lemma StepKeepsTasks(s: Pool, step: Step)
    requires EachTakenRunsOnce(s) && Enabled(s, step)
    ensures EachTakenRunsOnce(Next(s, step))
  {
    hide Enabled, Next, RunsOnce;
    forall task: Task ensures RunsOnce(Next(s, step), task) {
      StepKeepsTask(s, step, task);
    }
  }

  lemma StepKeepsInv(s: Pool, step: Step)
    requires Inv(s) && Enabled(s, step)
    ensures Inv(Next(s, step))
  {
    assert |Next(s, step).workers| >= 1;
    hide Next, Enabled, NoLostWakeup, StopIsHeard, ExitedOnlyWhenDrained, Fifo, EachTakenRunsOnce;
    StepKeepsWakeups(s, step);
    StepKeepsQueue(s, step);
    StepKeepsTasks(s, step);
  }

  lemma {:induction false} RunKeepsInv(s: Pool, steps: seq<Step>, t: Pool)
    requires Inv(s) && Reaches(s, steps, t)
    ensures Inv(t)
    decreases |steps|
  {
    hide Next, Enabled, Inv;
    if steps != [] {
      StepKeepsInv(s, steps[0]);
      RunKeepsInv(Next(s, steps[0]), steps[1..], t);
    }
  }

  lemma ReachableInv(s: Pool)
    requires Reachable(s)
    ensures Inv(s)
  {
    var s0, steps :| Init(s0) && Reaches(s0, steps, s);
    InitInv(s0);
    RunKeepsInv(s0, steps, s);
  }

  // ------------------------------------------------------------------ safety over all runs

  /** No interleaving of workers, adders, stoppers and causeless wakeups loses a wakeup: while any
      worker sleeps, the queued tasks are matched one by one by notifications on their way and
      workers about to look; in particular a queued task never finds everybody asleep with nothing
      on its way. Once stop_ is set, a sleeper has a notify_all on its way. */
  lemma NoWakeupIsLost(s: Pool)
    requires Reachable(s)
    ensures SomeAsleep(s.workers) ==> |s.queue| <= s.ones + TopCount(s.workers)
    ensures s.queue != [] && s.ones == 0 ==>
              exists i :: 0 <= i < |s.workers| && (s.workers[i].AtTop? || s.workers[i].Running?)
    ensures s.stop && s.alls == 0 ==> Asleep !in s.workers
  {
    ReachableInv(s);
    if s.queue != [] && s.ones == 0 {
      assert Exited !in s.workers;
      if Asleep in s.workers {
        var i := SumPositive(WeighTop, s.workers);
      } else {
        assert s.workers[0] != Asleep && s.workers[0] != Exited;
      }
    }
  }

  /** Tasks leave in the order they came, and no task finishes more often than it was accepted. */
  lemma FifoAndAtMostOnce(s: Pool)
    requires Reachable(s)
    ensures s.accepted == s.taken + s.queue
    ensures multiset(s.finished) <= multiset(s.taken) <= multiset(s.accepted)
  {
    ReachableInv(s);
    forall task: Task ensures multiset(s.finished)[task] <= multiset(s.taken)[task] {
      assert RunsOnce(s, task);
    }
  }

  /** A worker exits only when the pool is stopped and the queue empty, and from then on the queue
      stays empty. */
  lemma {:induction false} ExitedMeansDrained(s: Pool, steps: seq<Step>, t: Pool)
    requires Inv(s) && Exited in s.workers && Reaches(s, steps, t)
    ensures s.queue == [] && t.queue == [] && t.stop
    decreases |steps|
  {
    if steps != [] {
      StepKeepsInv(s, steps[0]);
      ExitedStays(s, steps[0]);
      hide Enabled, Next;
      ExitedMeansDrained(Next(s, steps[0]), steps[1..], t);
    }
  }

  lemma ExitedStays(s: Pool, step: Step)
    requires Exited in s.workers && Enabled(s, step)
    ensures Exited in Next(s, step).workers
  {
    var i :| 0 <= i < |s.workers| && s.workers[i] == Exited;
    assert Next(s, step).workers[i] == Exited;
  }

  predicate AllExited(s: Pool) {
    forall i :: 0 <= i < |s.workers| ==> s.workers[i].Exited?
  }

  /** When Join() returns, every task that was accepted has been run, each exactly once. */
  lemma JoinMeansAllRun(s: Pool)
    requires Reachable(s) && AllExited(s)
    ensures s.queue == [] && s.taken == s.accepted
    ensures multiset(s.finished) == multiset(s.accepted)
  {
    ReachableInv(s);
    assert s.workers[0] == Exited;
    assert s.taken + [] == s.taken;
    forall task: Task ensures multiset(s.finished)[task] == multiset(s.accepted)[task] {
      assert RunsOnce(s, task);
      SumZero(Runs(task), s.workers);
    }
  }

  /** The tasks passed to AddTask in a run. */
  function Added(steps: seq<Step>): seq<Task> {
    if steps == [] then [] else (if steps[0].AddTask? then [steps[0].task] else []) + Added(steps[1..])
  }

  lemma StepIsRemembered(s: Pool, step: Step)
    requires Enabled(s, step)
    ensures Next(s, step).accepted == s.accepted + (if step.AddTask? then [step.task] else [])
    ensures Next(s, step).stop <==> s.stop || step == Stop
  {}

  /** What was accepted is what was passed, in the order of the calls, and stop_ is set by Stop only. */
  lemma {:induction false} HistoryIsTheCalls(s: Pool, steps: seq<Step>, t: Pool)
    requires Reaches(s, steps, t)
    ensures t.accepted == s.accepted + Added(steps)
    ensures t.stop <==> s.stop || Stop in steps
    decreases |steps|
  {
    if steps != [] {
      StepIsRemembered(s, steps[0]);
      hide Enabled, Next;
      HistoryIsTheCalls(Next(s, steps[0]), steps[1..], t);
      hide Reaches;
      var first := if steps[0].AddTask? then [steps[0].task] else [];
      assert Added(steps) == first + Added(steps[1..]);
      assert s.accepted + (first + Added(steps[1..])) == (s.accepted + first) + Added(steps[1..]);
      assert steps == [steps[0]] + steps[1..];
    }
  }

  /** When Join() returns, the tasks that were passed have been run, each exactly once. */
  lemma EveryAddedTaskHasRun(s0: Pool, steps: seq<Step>, t: Pool)
    requires Init(s0) && Reaches(s0, steps, t) && AllExited(t)
    ensures multiset(t.finished) == multiset(Added(steps)) && Stop in steps
  {
    JoinMeansAllRun(t);
    HistoryIsTheCalls(s0, steps, t);
    assert [] + Added(steps) == Added(steps);
    ReachableInv(t);
    assert t.workers[0] == Exited;
  }

  // ------------------------------------------------------------------ termination after Stop

  function StopRank(w: Worker): nat {
    match w
    case AtTop => 1
    case Asleep => 2
    case Running(_) => 2
    case Exited => 0
  }

  /** Bounds the steps still to come once stop_ is set. */
  function StepsToJoin(s: Pool): nat {
    2 * |s.queue| + Sum(StopRank, s.workers) + s.ones + s.alls
  }

  lemma StepAfterStop(s: Pool, step: Step)
    requires s.stop && Enabled(s, step) && !step.Stop?
    ensures Next(s, step).stop && StepsToJoin(Next(s, step)) < StepsToJoin(s)
  {
    match step
    case NotifyOne(woken) => if woken.Some? { SumUpdate(StopRank, s.workers, woken.value, AtTop); }
    case NotifyAll => SumGain(StopRank, s.workers, WakeAll(s.workers), 0);
    case Enter(i) => SumUpdate(StopRank, s.workers, i, Next(s, step).workers[i]);
    case Finish(i) => SumUpdate(StopRank, s.workers, i, AtTop);
    case WakeForNoReason(i) => SumUpdate(StopRank, s.workers, i, AtTop);
    case _ =>
  }

  /** After Stop() every step, causeless wakeups included, uses up one of a bounded number. */
  lemma {:induction false} StopBoundsTheRun(s: Pool, steps: seq<Step>, t: Pool)
    requires s.stop && Reaches(s, steps, t) && Stop !in steps
    ensures t.stop && |steps| + StepsToJoin(t) <= StepsToJoin(s)
    decreases |steps|
  {
    if steps != [] {
      assert steps[0] != Stop;
      StepAfterStop(s, steps[0]);
      hide Enabled, Next, StepsToJoin;
      StopBoundsTheRun(Next(s, steps[0]), steps[1..], t);
    }
  }

  /** ... and until every worker has exited somebody can move without a causeless wakeup. So after
      at most StepsToJoin steps all workers have exited and Join() returns. */
  lemma StoppedPoolMoves(s: Pool) returns (step: Step)
    requires Reachable(s) && s.stop && !AllExited(s)
    ensures Enabled(s, step) && (step.Enter? || step.Finish? || step.NotifyAll?)
  {
    ReachableInv(s);
    var i :| 0 <= i < |s.workers| && !s.workers[i].Exited?;
    match s.workers[i]
    case AtTop => step := Enter(i);
    case Running(_) => step := Finish(i);
    case Asleep => step := NotifyAll;
  }

  // ------------------------------------------------------------------ progress without Stop

  function WorkRank(w: Worker): nat {
    match w
    case AtTop => 1
    case Asleep => 0
    case Running(_) => 2
    case Exited => 0
  }

  /** Bounds the steps the pool takes if nobody adds a task, stops it, or is woken without cause. */
  function StepsToQuiet(s: Pool): nat {
    2 * |s.queue| + Sum(WorkRank, s.workers) + 2 * s.ones + (|s.workers| + 1) * s.alls
  }

  predicate IsOwnStep(step: Step) {
    step.NotifyOne? || step.NotifyAll? || step.Enter? || step.Finish?
  }

  lemma OwnStepCosts(s: Pool, step: Step)
    requires Enabled(s, step) && IsOwnStep(step)
    ensures StepsToQuiet(Next(s, step)) < StepsToQuiet(s)
  {
    hide Sum;
    match step
    case NotifyOne(woken) => if woken.Some? { SumUpdate(WorkRank, s.workers, woken.value, AtTop); }
    case NotifyAll => NotifyAllCosts(s);
    case Enter(i) => SumUpdate(WorkRank, s.workers, i, Next(s, step).workers[i]);
    case Finish(i) => SumUpdate(WorkRank, s.workers, i, AtTop);
  }

  lemma NotifyAllCosts(s: Pool)
    requires s.alls > 0
    ensures StepsToQuiet(Next(s, NotifyAll)) < StepsToQuiet(s)
  {
    SumGain(WorkRank, s.workers, WakeAll(s.workers), 1);
    hide Sum, WakeAll;
    OneLess(|s.workers| + 1, s.alls);
  }

  lemma OneLess(n: nat, alls: nat)
    requires alls > 0
    ensures n * alls == n * (alls - 1) + n
  {}

  lemma {:induction false} PoolGoesQuiet(s: Pool, steps: seq<Step>, t: Pool)
    requires Reaches(s, steps, t) && forall k :: 0 <= k < |steps| ==> IsOwnStep(steps[k])
    ensures |steps| + StepsToQuiet(t) <= StepsToQuiet(s)
    decreases |steps|
  {
    if steps != [] {
      OwnStepCosts(s, steps[0]);
      hide Enabled, Next, StepsToQuiet;
      PoolGoesQuiet(Next(s, steps[0]), steps[1..], t);
    }
  }

  ghost predicate Quiet(s: Pool) {
    forall step :: IsOwnStep(step) ==> !Enabled(s, step)
  }

  lemma QuietMeansNobodyMoves(s: Pool)
    requires Quiet(s)
    ensures forall i :: 0 <= i < |s.workers| ==> s.workers[i].Asleep? || s.workers[i].Exited?
    ensures s.ones == 0 && s.alls == 0
  {
    forall i | 0 <= i < |s.workers| ensures s.workers[i].Asleep? || s.workers[i].Exited? {
      assert !Enabled(s, Enter(i)) && !Enabled(s, Finish(i));
    }
    assert !Enabled(s, NotifyAll);
    if Asleep in s.workers {
      var i :| 0 <= i < |s.workers| && s.workers[i] == Asleep;
      assert !Enabled(s, NotifyOne(Some(i)));
    } else {
      assert !Enabled(s, NotifyOne(None));
    }
  }

  /** Every accepted task is run, stopped or not: the pool gets to a state in which neither a worker
      nor a notification can move (PoolGoesQuiet), and there nothing is left to run. */
  lemma QuietMeansAllRun(s: Pool)
    requires Reachable(s) && Quiet(s)
    ensures s.queue == [] && multiset(s.finished) == multiset(s.accepted)
    ensures s.stop ==> AllExited(s)
  {
    QuietMeansNobodyMoves(s);
    hide Quiet, Enabled;
    NoWakeupIsLost(s);
    ReachableInv(s);
    hide NoLostWakeup, Sum;
    assert s.taken + [] == s.taken;
    forall task: Task ensures multiset(s.finished)[task] == multiset(s.accepted)[task] {
      assert RunsOnce(s, task);
      SumZero(Runs(task), s.workers);
    }
  }
}
