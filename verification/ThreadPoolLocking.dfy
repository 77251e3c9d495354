/** The thread pool of base/thread_pool.h statement by statement: workers, callers of AddTask and
    callers of Stop each have a program counter, and `mutex_` is held by at most one of them. The
    queue has a mutex of its own, so each of its operations is one step; WaitTake on an empty queue
    blocks, here while holding `mutex_`.

    Every run is a run of ThreadPoolProtocol once the statements inside a critical section are taken
    together, so what is proved there holds here. */
module ThreadPoolLocking {
  import opened Sums
  import opened Wrappers
  import P = ThreadPoolProtocol

  datatype Worker =
    | Locking
    | TestingPredicate       // holds mutex_
    | Sleeping
    | TestingExit            // holds mutex_
    | Taking                 // holds mutex_
    | Leaving(task: P.Task)  // holds mutex_
    | Working(task: P.Task)
    | Returning              // holds mutex_
    | Gone
  {
    predicate Holds() {
      TestingPredicate? || TestingExit? || Taking? || Leaving? || Returning?
    }
  }

  datatype Adder =
    | Outside
    | Locking(task: P.Task)
    | TestingStop(task: P.Task)  // holds mutex_
    | Pushing(task: P.Task)      // holds mutex_
    | Throwing                   // holds mutex_
    | Leaving                    // holds mutex_
    | Notifying
  {
    predicate Holds() {
      TestingStop? || Pushing? || Throwing? || Leaving?
    }

    /** The task is queued and notify_one is still to come. */
    predicate OwesNotify() {
      Leaving? || Notifying?
    }
  }

  datatype Stopper =
    | Outside
    | Locking
    | Setting    // holds mutex_
    | Leaving    // holds mutex_
    | Notifying
  {
    predicate Holds() {
      Setting? || Leaving?
    }

    predicate OwesNotify() {
      Leaving? || Notifying?
    }
  }

  datatype Thread = WorkerThread(i: nat) | AdderThread(i: nat) | StopperThread(i: nat)

  datatype System = System(
    stop: bool, queue: seq<P.Task>, holder: Option<Thread>,
    workers: seq<Worker>, adders: seq<Adder>, stoppers: seq<Stopper>,
    accepted: seq<P.Task>, taken: seq<P.Task>, finished: seq<P.Task>, refused: seq<P.Task>)

  ghost predicate Init(s: System) {
    && s == System(false, [], None, s.workers, s.adders, s.stoppers, [], [], [], [])
    && |s.workers| >= 1
    && (forall i :: 0 <= i < |s.workers| ==> s.workers[i] == Worker.Locking)
    && (forall i :: 0 <= i < |s.adders| ==> s.adders[i] == Adder.Outside)
    && (forall i :: 0 <= i < |s.stoppers| ==> s.stoppers[i] == Stopper.Outside)
  }

  datatype Step =
    | WorkerMoves(i: nat)
    | WorkerWakes(i: nat)                      // without a notification
    | AdderCalls(i: nat, task: P.Task)
    | AdderMoves(i: nat, woken: Option<nat>)   // `woken` matters for notify_one only
    | StopperCalls(i: nat)
    | StopperMoves(i: nat)

  predicate WorkerEnabled(s: System, i: nat) {
    i < |s.workers| &&
    match s.workers[i]
    case Locking => s.holder == None
    case Taking => s.queue != []
    case Sleeping => false
    case Gone => false
    case _ => true
  }

  predicate AdderEnabled(s: System, i: nat, woken: Option<nat>) {
    i < |s.adders| &&
    match s.adders[i]
    case Outside => false
    case Locking(_) => s.holder == None
    case Notifying =>
      if woken.Some? then woken.value < |s.workers| && s.workers[woken.value].Sleeping?
      else Sleeping !in s.workers
    case _ => true
  }

  predicate StopperEnabled(s: System, i: nat) {
    i < |s.stoppers| &&
    match s.stoppers[i]
    case Outside => false
    case Locking => s.holder == None
    case _ => true
  }

  predicate Enabled(s: System, step: Step) {
    match step
    case WorkerMoves(i) => WorkerEnabled(s, i)
    case WorkerWakes(i) => i < |s.workers| && s.workers[i].Sleeping?
    case AdderCalls(i, _) => i < |s.adders| && s.adders[i].Outside?
    case AdderMoves(i, woken) => AdderEnabled(s, i, woken)
    case StopperCalls(i) => i < |s.stoppers| && s.stoppers[i].Outside?
    case StopperMoves(i) => StopperEnabled(s, i)
  }

  function MoveWorker(s: System, i: nat): System
    requires WorkerEnabled(s, i)
  {
    match s.workers[i]
    case Locking => s.(holder := Some(WorkerThread(i)), workers := s.workers[i := TestingPredicate])
    case TestingPredicate =>
      if s.stop || s.queue != [] then s.(workers := s.workers[i := TestingExit])
      else s.(holder := None, workers := s.workers[i := Sleeping])
    case TestingExit =>
      s.(workers := s.workers[i := if s.stop && s.queue == [] then Returning else Taking])
    case Taking =>
      s.(workers := s.workers[i := Worker.Leaving(s.queue[0])], queue := s.queue[1..], taken := s.taken + [s.queue[0]])
    case Leaving(task) => s.(holder := None, workers := s.workers[i := Working(task)])
    case Working(task) => s.(workers := s.workers[i := Worker.Locking], finished := s.finished + [task])
    case Returning => s.(holder := None, workers := s.workers[i := Gone])
  }

  function WakeAll(ws: seq<Worker>): (r: seq<Worker>)
    ensures |r| == |ws|
    ensures forall i :: 0 <= i < |ws| ==> r[i] == if ws[i].Sleeping? then Worker.Locking else ws[i]
  {
    seq(|ws|, i requires 0 <= i < |ws| => if ws[i].Sleeping? then Worker.Locking else ws[i])
  }

  function MoveAdder(s: System, i: nat, woken: Option<nat>): System
    requires AdderEnabled(s, i, woken)
  {
    match s.adders[i]
    case Locking(task) => s.(holder := Some(AdderThread(i)), adders := s.adders[i := TestingStop(task)])
    case TestingStop(task) =>
      if s.stop then s.(adders := s.adders[i := Throwing], refused := s.refused + [task])
      else s.(adders := s.adders[i := Pushing(task)])
    case Pushing(task) =>
      s.(adders := s.adders[i := Adder.Leaving], queue := s.queue + [task], accepted := s.accepted + [task])
    case Throwing => s.(holder := None, adders := s.adders[i := Adder.Outside])
    case Leaving => s.(holder := None, adders := s.adders[i := Adder.Notifying])
    case Notifying =>
      s.(adders := s.adders[i := Adder.Outside],
         workers := if woken.Some? then s.workers[woken.value := Worker.Locking] else s.workers)
  }

  function MoveStopper(s: System, i: nat): System
    requires StopperEnabled(s, i)
  {
    match s.stoppers[i]
    case Locking => s.(holder := Some(StopperThread(i)), stoppers := s.stoppers[i := Setting])
    case Setting => s.(stop := true, stoppers := s.stoppers[i := Stopper.Leaving])
    case Leaving => s.(holder := None, stoppers := s.stoppers[i := Stopper.Notifying])
    case Notifying => s.(stoppers := s.stoppers[i := Stopper.Outside], workers := WakeAll(s.workers))
  }

  function Next(s: System, step: Step): System
    requires Enabled(s, step)
  {
    match step
    case WorkerMoves(i) => MoveWorker(s, i)
    case WorkerWakes(i) => s.(workers := s.workers[i := Worker.Locking])
    case AdderCalls(i, task) => s.(adders := s.adders[i := Adder.Locking(task)])
    case AdderMoves(i, woken) => MoveAdder(s, i, woken)
    case StopperCalls(i) => s.(stoppers := s.stoppers[i := Stopper.Locking])
    case StopperMoves(i) => MoveStopper(s, i)
  }

  ghost predicate Reaches(s: System, steps: seq<Step>, t: System)
    decreases |steps|
  {
    if steps == [] then s == t
    else Enabled(s, steps[0]) && Reaches(Next(s, steps[0]), steps[1..], t)
  }

  ghost predicate Reachable(s: System) {
    exists s0, steps :: Init(s0) && Reaches(s0, steps, s)
  }

  // ------------------------------------------------------------------ mutual exclusion

  ghost predicate MutualExclusion(s: System) {
    && (forall i :: 0 <= i < |s.workers| ==> (s.workers[i].Holds() <==> s.holder == Some(WorkerThread(i))))
    && (forall i :: 0 <= i < |s.adders| ==> (s.adders[i].Holds() <==> s.holder == Some(AdderThread(i))))
    && (forall i :: 0 <= i < |s.stoppers| ==> (s.stoppers[i].Holds() <==> s.holder == Some(StopperThread(i))))
    && (s.holder.Some? ==>
         match s.holder.value
         case WorkerThread(i) => i < |s.workers|
         case AdderThread(i) => i < |s.adders|
         case StopperThread(i) => i < |s.stoppers|)
  }

  /** What a thread has established since it took the lock. */
  ghost predicate Established(s: System) {
    && (forall i :: 0 <= i < |s.workers| ==>
         && (s.workers[i].TestingExit? ==> s.stop || s.queue != [])
         && (s.workers[i].Taking? ==> s.queue != []))
    && (forall i :: 0 <= i < |s.adders| ==> (s.adders[i].Pushing? ==> !s.stop))
    && (forall i :: 0 <= i < |s.stoppers| ==> (s.stoppers[i].OwesNotify() ==> s.stop))
    && (s.refused != [] ==> s.stop)
  }

  ghost predicate Inv(s: System) {
    MutualExclusion(s) && Established(s)
  }

  lemma WorkerKeepsMutualExclusion(s: System, i: nat)
    requires MutualExclusion(s) && WorkerEnabled(s, i)
    ensures MutualExclusion(MoveWorker(s, i))
  {}

  lemma AdderKeepsMutualExclusion(s: System, i: nat, woken: Option<nat>)
    requires MutualExclusion(s) && AdderEnabled(s, i, woken)
    ensures MutualExclusion(MoveAdder(s, i, woken))
  {}

  lemma StopperKeepsMutualExclusion(s: System, i: nat)
    requires MutualExclusion(s) && StopperEnabled(s, i)
    ensures MutualExclusion(MoveStopper(s, i))
  {}

  lemma StepKeepsMutualExclusion(s: System, step: Step)
    requires MutualExclusion(s) && Enabled(s, step)
    ensures MutualExclusion(Next(s, step))
  {
    hide MoveWorker, MoveAdder, MoveStopper, WorkerEnabled, AdderEnabled, StopperEnabled;
    match step
    case WorkerMoves(i) => WorkerKeepsMutualExclusion(s, i);
    case AdderMoves(i, woken) => AdderKeepsMutualExclusion(s, i, woken);
    case StopperMoves(i) => StopperKeepsMutualExclusion(s, i);
    case _ =>
  }

  lemma WorkerKeepsEstablished(s: System, i: nat)
    requires Inv(s) && WorkerEnabled(s, i)
    ensures Established(MoveWorker(s, i))
  {}

  lemma AdderKeepsEstablished(s: System, i: nat, woken: Option<nat>)
    requires Inv(s) && AdderEnabled(s, i, woken)
    ensures Established(MoveAdder(s, i, woken))
  {}

  lemma StopperKeepsEstablished(s: System, i: nat)
    requires Inv(s) && StopperEnabled(s, i)
    ensures Established(MoveStopper(s, i))
  {}

  lemma StepKeepsEstablished(s: System, step: Step)
    requires Inv(s) && Enabled(s, step)
    ensures Established(Next(s, step))
  {
    hide MutualExclusion, MoveWorker, MoveAdder, MoveStopper, WorkerEnabled, AdderEnabled, StopperEnabled;
    match step
    case WorkerMoves(i) => WorkerKeepsEstablished(s, i);
    case AdderMoves(i, woken) => AdderKeepsEstablished(s, i, woken);
    case StopperMoves(i) => StopperKeepsEstablished(s, i);
    case _ =>
  }

  lemma StepKeepsInv(s: System, step: Step)
    requires Inv(s) && Enabled(s, step)
    ensures Inv(Next(s, step))
  {
    hide Enabled, Next, MutualExclusion, Established;
    StepKeepsMutualExclusion(s, step);
    StepKeepsEstablished(s, step);
  }

  lemma {:induction false} RunKeepsInv(s: System, steps: seq<Step>, t: System)
    requires Inv(s) && Reaches(s, steps, t)
    ensures Inv(t)
    decreases |steps|
  {
    hide Enabled, Next, Inv;
    if steps != [] {
      StepKeepsInv(s, steps[0]);
      RunKeepsInv(Next(s, steps[0]), steps[1..], t);
    }
  }

  lemma ReachableInv(s: System)
    requires Reachable(s)
    ensures Inv(s)
  {
    var s0, steps :| Init(s0) && Reaches(s0, steps, s);
    RunKeepsInv(s0, steps, s);
  }

  /** The wait inside WaitTake never blocks: a worker calls it only with a task in the queue, which
      nobody can take away while it holds `mutex_`. */
  lemma NestedWaitNeverBlocks(s: System, i: nat)
    requires Reachable(s) && i < |s.workers| && s.workers[i].Taking?
    ensures s.queue != [] && Enabled(s, WorkerMoves(i))
  {
    ReachableInv(s);
  }

  /** Two threads are never both inside a section under `mutex_`, and the one that is inside can
      always take its next step, so the lock is always released. */
  lemma HolderMoves(s: System) returns (step: Step)
    requires Reachable(s) && s.holder.Some?
    ensures Enabled(s, step)
    ensures match s.holder.value
            case WorkerThread(i) => step == WorkerMoves(i)
            case AdderThread(i) => step.AdderMoves? && step.i == i
            case StopperThread(i) => step == StopperMoves(i)
  {
    ReachableInv(s);
    match s.holder.value
    case WorkerThread(i) => step := WorkerMoves(i);
    case AdderThread(i) => step := AdderMoves(i, None);
    case StopperThread(i) => step := StopperMoves(i);
  }

  // ------------------------------------------------------------------ sections are atomic

  function AdderOwes(a: Adder): nat { if a.OwesNotify() then 1 else 0 }

  function StopperOwes(t: Stopper): nat { if t.OwesNotify() then 1 else 0 }

  function AbsWorker(w: Worker): P.Worker {
    match w
    case Locking => P.AtTop
    case TestingPredicate => P.AtTop
    case Sleeping => P.Asleep
    case TestingExit => P.AtTop
    case Taking => P.AtTop
    case Leaving(task) => P.Running(task)
    case Working(task) => P.Running(task)
    case Returning => P.Exited
    case Gone => P.Exited
  }

  function AbsWorkers(ws: seq<Worker>): (r: seq<P.Worker>)
    ensures |r| == |ws| && forall i :: 0 <= i < |ws| ==> r[i] == AbsWorker(ws[i])
  {
    seq(|ws|, i requires 0 <= i < |ws| => AbsWorker(ws[i]))
  }

  function Abs(s: System): P.Pool {
    P.Pool(s.stop, s.queue, AbsWorkers(s.workers), Sum(AdderOwes, s.adders), Sum(StopperOwes, s.stoppers),
           s.accepted, s.taken, s.finished)
  }

  /** The step of ThreadPoolProtocol that a statement completes, if it completes one. */
  function Shadow(s: System, step: Step): seq<P.Step>
    requires Enabled(s, step)
  {
    match step
    case WorkerMoves(i) =>
      (match s.workers[i]
       case TestingPredicate => if s.stop || s.queue != [] then [] else [P.Enter(i)]
       case TestingExit => if s.stop && s.queue == [] then [P.Enter(i)] else []
       case Taking => [P.Enter(i)]
       case Working(_) => [P.Finish(i)]
       case _ => [])
    case WorkerWakes(i) => [P.WakeForNoReason(i)]
    case AdderMoves(i, woken) =>
      (match s.adders[i]
       case Pushing(task) => [P.AddTask(task)]
       case Notifying => [P.NotifyOne(woken)]
       case _ => [])
    case StopperMoves(i) =>
      (match s.stoppers[i]
       case Setting => [P.Stop]
       case Notifying => [P.NotifyAll]
       case _ => [])
    case _ => []
  }

  lemma OneStep(s: P.Pool, step: P.Step, t: P.Pool)
    requires P.Enabled(s, step) && t == P.Next(s, step)
    ensures P.Reaches(s, [step], t)
  {
    assert [step][1..] == [];
  }

  lemma AbsWorkersUpdate(ws: seq<Worker>, i: nat, w: Worker)
    requires i < |ws|
    ensures AbsWorkers(ws[i := w]) == AbsWorkers(ws)[i := AbsWorker(w)]
  {}

  lemma WorkerRefines(s: System, i: nat)
    requires Inv(s) && WorkerEnabled(s, i)
    ensures P.Reaches(Abs(s), Shadow(s, WorkerMoves(i)), Abs(MoveWorker(s, i)))
  {
    var a, t := Abs(s), MoveWorker(s, i);
    var b := Abs(t);
    AbsWorkersUpdate(s.workers, i, t.workers[i]);
    var shadow := Shadow(s, WorkerMoves(i));
    if shadow == [] {
      assert b.workers == a.workers;
    } else {
      assert P.Next(a, shadow[0]) == b;
      OneStep(a, shadow[0], b);
    }
  }

  lemma AdderRefines(s: System, i: nat, woken: Option<nat>)
    requires Inv(s) && AdderEnabled(s, i, woken)
    ensures P.Reaches(Abs(s), Shadow(s, AdderMoves(i, woken)), Abs(MoveAdder(s, i, woken)))
  {
    var a, t := Abs(s), MoveAdder(s, i, woken);
    var b := Abs(t);
    SumUpdate(AdderOwes, s.adders, i, t.adders[i]);
    if s.adders[i].Notifying? && woken.Some? {
      AbsWorkersUpdate(s.workers, woken.value, Worker.Locking);
    }
    var shadow := Shadow(s, AdderMoves(i, woken));
    if shadow != [] {
      assert P.Next(a, shadow[0]) == b;
      OneStep(a, shadow[0], b);
    }
  }

  lemma StopperRefines(s: System, i: nat)
    requires Inv(s) && StopperEnabled(s, i)
    ensures P.Reaches(Abs(s), Shadow(s, StopperMoves(i)), Abs(MoveStopper(s, i)))
  {
    var a, t := Abs(s), MoveStopper(s, i);
    var b := Abs(t);
    SumUpdate(StopperOwes, s.stoppers, i, t.stoppers[i]);
    var shadow := Shadow(s, StopperMoves(i));
    if shadow != [] {
      assert s.stoppers[i].Notifying? ==> b.workers == P.WakeAll(a.workers);
      assert P.Next(a, shadow[0]) == b;
      OneStep(a, shadow[0], b);
    }
  }

  lemma StepRefines(s: System, step: Step)
    requires Inv(s) && Enabled(s, step)
    ensures P.Reaches(Abs(s), Shadow(s, step), Abs(Next(s, step)))
  {
    match step
    case WorkerMoves(i) => WorkerRefines(s, i);
    case WorkerWakes(i) =>
      AbsWorkersUpdate(s.workers, i, Worker.Locking);
      OneStep(Abs(s), P.WakeForNoReason(i), Abs(Next(s, step)));
    case AdderCalls(i, task) => SumUpdate(AdderOwes, s.adders, i, Adder.Locking(task));
    case AdderMoves(i, woken) => AdderRefines(s, i, woken);
    case StopperCalls(i) => SumUpdate(StopperOwes, s.stoppers, i, Stopper.Locking);
    case StopperMoves(i) => StopperRefines(s, i);
  }

  /** A run of statements, seen as a run of ThreadPoolProtocol. */
  lemma {:induction false} RunRefines(s: System, steps: seq<Step>, t: System) returns (shadow: seq<P.Step>)
    requires Inv(s) && Reaches(s, steps, t)
    ensures P.Reaches(Abs(s), shadow, Abs(t))
    decreases |steps|
  {
    shadow := [];
    if steps != [] {
      StepRefines(s, steps[0]);
      StepKeepsInv(s, steps[0]);
      hide Enabled, Next, Inv, Abs, Shadow, P.Enabled, P.Next;
      var rest := RunRefines(Next(s, steps[0]), steps[1..], t);
      shadow := Shadow(s, steps[0]) + rest;
      P.ReachesJoined(Abs(s), Shadow(s, steps[0]), Abs(Next(s, steps[0])), rest, Abs(t));
    }
  }

  /** The atomic machine allows everything the statements can do. */
  lemma SectionsAreAtomic(s: System)
    requires Reachable(s)
    ensures P.Reachable(Abs(s))
  {
    var s0, steps :| Init(s0) && Reaches(s0, steps, s);
    SumZero(AdderOwes, s0.adders);
    SumZero(StopperOwes, s0.stoppers);
    assert P.Init(Abs(s0));
    var shadow := RunRefines(s0, steps, s);
  }

  predicate AllGone(s: System) {
    forall i :: 0 <= i < |s.workers| ==> s.workers[i].Gone?
  }

  /** Statement by statement, too: when Join() returns every accepted task has been run once. */
  lemma JoinMeansAllRun(s: System)
    requires Reachable(s) && AllGone(s)
    ensures s.queue == [] && multiset(s.finished) == multiset(s.accepted)
  {
    SectionsAreAtomic(s);
    P.JoinMeansAllRun(Abs(s));
  }

  predicate IsOwnStep(step: Step) {
    step.WorkerMoves? || step.AdderMoves? || step.StopperMoves?
  }

  /** No deadlock on the way out: once stopped, until every worker is gone some thread inside the
      pool can move, without new calls and without causeless wakeups. */
  lemma StoppedSystemMoves(s: System) returns (step: Step)
    requires Reachable(s) && s.stop && !AllGone(s)
    ensures Enabled(s, step) && IsOwnStep(step)
  {
    ReachableInv(s);
    if s.holder.Some? {
      step := HolderMoves(s);
    } else {
      SectionsAreAtomic(s);
      var i :| 0 <= i < |s.workers| && !s.workers[i].Gone?;
      assert !Abs(s).workers[i].Exited?;
      var p := P.StoppedPoolMoves(Abs(s));
      match p
      case Enter(j) => step := WorkerMoves(j);
      case Finish(j) => step := WorkerMoves(j);
      case NotifyAll =>
        var j := SumPositive(StopperOwes, s.stoppers);
        step := StopperMoves(j);
    }
  }

  // ------------------------------------------------------------------ termination after Stop

  function WorkerRank(w: Worker): nat {
    match w
    case Gone => 0
    case Returning => 1
    case Taking => 2
    case TestingExit => 3
    case TestingPredicate => 4
    case Locking => 5
    case Sleeping => 6
    case Working(_) => 6
    case Leaving(_) => 7
  }

  function AdderRank(a: Adder): nat {
    match a
    case Outside => 0
    case Throwing => 1
    case Notifying => 1
    case TestingStop(_) => 2
    case Leaving => 2
    case Locking(_) => 3
    case Pushing(_) => 3
  }

  function StopperRank(t: Stopper): nat {
    match t
    case Outside => 0
    case Notifying => 1
    case Leaving => 2
    case Setting => 3
    case Locking => 4
  }

  /** Bounds the statements still to come once stop_ is set, if nobody calls the pool any more. */
  function StepsToGone(s: System): nat {
    6 * |s.queue| + Sum(WorkerRank, s.workers) + Sum(AdderRank, s.adders) + Sum(StopperRank, s.stoppers)
  }

  lemma WorkerMoveIsLocal(s: System, i: nat)
    requires s.stop && WorkerEnabled(s, i)
    ensures var t := MoveWorker(s, i);
            && |t.workers| == |s.workers| && t.workers == s.workers[i := t.workers[i]]
            && t.adders == s.adders && t.stoppers == s.stoppers
            && 6 * |t.queue| + WorkerRank(t.workers[i]) < 6 * |s.queue| + WorkerRank(s.workers[i])
  {}

  lemma WorkerCosts(s: System, i: nat)
    requires s.stop && WorkerEnabled(s, i)
    ensures StepsToGone(MoveWorker(s, i)) < StepsToGone(s)
  {
    WorkerMoveIsLocal(s, i);
    hide MoveWorker, WorkerEnabled, Sum;
    SumUpdate(WorkerRank, s.workers, i, MoveWorker(s, i).workers[i]);
  }

  lemma AdderCosts(s: System, i: nat, woken: Option<nat>)
    requires Inv(s) && s.stop && AdderEnabled(s, i, woken)
    ensures StepsToGone(MoveAdder(s, i, woken)) < StepsToGone(s)
  {
    SumUpdate(AdderRank, s.adders, i, MoveAdder(s, i, woken).adders[i]);
    if s.adders[i].Notifying? && woken.Some? {
      SumUpdate(WorkerRank, s.workers, woken.value, Worker.Locking);
    }
    hide Sum, MutualExclusion;
  }

  lemma StopperCosts(s: System, i: nat)
    requires s.stop && StopperEnabled(s, i)
    ensures StepsToGone(MoveStopper(s, i)) < StepsToGone(s)
  {
    SumUpdate(StopperRank, s.stoppers, i, MoveStopper(s, i).stoppers[i]);
    SumGain(WorkerRank, s.workers, WakeAll(s.workers), 0);
    hide Sum, WakeAll;
  }

  predicate IsCall(step: Step) {
    step.AdderCalls? || step.StopperCalls?
  }

  function Calls(steps: seq<Step>): nat {
    if steps == [] then 0 else (if IsCall(steps[0]) then 1 else 0) + Calls(steps[1..])
  }

  lemma StepAfterStop(s: System, step: Step)
    requires Inv(s) && s.stop && Enabled(s, step)
    ensures Next(s, step).stop
    ensures StepsToGone(Next(s, step)) + 1 <= StepsToGone(s) + (if IsCall(step) then 5 else 0)
  {
    assert Next(s, step).stop;
    hide Sum, Inv, WorkerEnabled, AdderEnabled, StopperEnabled, MoveWorker, MoveAdder, MoveStopper;
    match step
    case WorkerMoves(i) => WorkerCosts(s, i);
    case WorkerWakes(i) => SumUpdate(WorkerRank, s.workers, i, Worker.Locking);
    case AdderCalls(i, task) => SumUpdate(AdderRank, s.adders, i, Adder.Locking(task));
    case AdderMoves(i, woken) => AdderCosts(s, i, woken);
    case StopperCalls(i) => SumUpdate(StopperRank, s.stoppers, i, Stopper.Locking);
    case StopperMoves(i) => StopperCosts(s, i);
  }

  /** After Stop() every statement of any thread, causeless wakeups included, uses up one of a bounded
      number; a further call of AddTask or Stop adds at most five statements, its own. */
  lemma {:induction false} StopBoundsTheRun(s: System, steps: seq<Step>, t: System)
    requires Inv(s) && s.stop && Reaches(s, steps, t)
    ensures t.stop && |steps| + StepsToGone(t) <= StepsToGone(s) + 5 * Calls(steps)
    decreases |steps|
  {
    if steps != [] {
      StepAfterStop(s, steps[0]);
      StepKeepsInv(s, steps[0]);
      hide Enabled, Next, StepsToGone, Inv;
      StopBoundsTheRun(Next(s, steps[0]), steps[1..], t);
    }
  }

  lemma {:induction false} RunsJoined(s0: System, first: seq<Step>, s: System, rest: seq<Step>, t: System)
    requires Reaches(s0, first, s) && Reaches(s, rest, t)
    ensures Reaches(s0, first + rest, t)
    decreases |first|
  {
    if first == [] {
      assert first + rest == rest;
    } else {
      assert (first + rest)[1..] == first[1..] + rest;
      hide Enabled, Next;
      RunsJoined(Next(s0, first[0]), first[1..], s, rest, t);
    }
  }

  /** Join() returns: from any state after Stop(), no run without further calls is longer than
      StepsToGone, and where one cannot be continued every worker is gone, the queue is empty and
      every accepted task has been run once. */
  lemma JoinReturns(s: System, steps: seq<Step>, t: System)
    requires Reachable(s) && s.stop && Reaches(s, steps, t) && Calls(steps) == 0
    ensures |steps| <= StepsToGone(s)
    ensures (forall step :: IsOwnStep(step) ==> !Enabled(t, step)) || |steps| == StepsToGone(s) ==>
              AllGone(t) && t.queue == [] && multiset(t.finished) == multiset(t.accepted)
  {
    ReachableInv(s);
    StopBoundsTheRun(s, steps, t);
    var s0, first :| Init(s0) && Reaches(s0, first, s);
    RunsJoined(s0, first, s, steps, t);
    assert Reachable(t);
    hide Reaches, Init, Reachable, Inv, Enabled, Next;
    if !AllGone(t) {
      var step := StoppedSystemMoves(t);
      assert Enabled(t, step) && IsOwnStep(step);
      if |steps| == StepsToGone(s) {
        ReachableInv(t);
        assert !IsCall(step);
        StepAfterStop(t, step);
      }
    } else {
      JoinMeansAllRun(t);
    }
  }

  // ------------------------------------------------------------------ every call is answered

  /** How often the task is passed to AddTask in a run. */
  function CallsFor(steps: seq<Step>, task: P.Task): nat {
    if steps == [] then 0
    else (if steps[0].AdderCalls? && steps[0].task == task then 1 else 0) + CallsFor(steps[1..], task)
  }

  /** Counts the callers that have been passed this task and have neither queued nor refused it. */
  function Carries(task: P.Task): Adder -> nat {
    a => if a == Adder.Locking(task) || a == TestingStop(task) || a == Pushing(task) then 1 else 0
  }

  /** Where the calls with this task have got to. */
  function Accounted(s: System, task: P.Task): nat {
    multiset(s.accepted)[task] + multiset(s.refused)[task] + Sum(Carries(task), s.adders)
  }

  lemma MovesOfOthersAreNoCalls(s: System, step: Step)
    requires Enabled(s, step) && !step.AdderMoves? && !step.AdderCalls?
    ensures var t := Next(s, step); t.accepted == s.accepted && t.refused == s.refused && t.adders == s.adders
  {}

  lemma AdderAccounts(s: System, i: nat, woken: Option<nat>, task: P.Task)
    requires AdderEnabled(s, i, woken)
    ensures Accounted(MoveAdder(s, i, woken), task) == Accounted(s, task)
  {
    SumUpdate(Carries(task), s.adders, i, MoveAdder(s, i, woken).adders[i]);
    hide Sum;
    match s.adders[i]
    case TestingStop(one) => if s.stop { P.CountOneMore(s.refused, task, one); }
    case Pushing(one) => P.CountOneMore(s.accepted, task, one);
    case _ =>
  }

  lemma StepAccounts(s: System, step: Step, task: P.Task)
    requires Enabled(s, step)
    ensures Accounted(Next(s, step), task)
         == Accounted(s, task) + (if step.AdderCalls? && step.task == task then 1 else 0)
  {
    match step
    case AdderCalls(i, one) => SumUpdate(Carries(task), s.adders, i, Adder.Locking(one));
    case AdderMoves(i, woken) => AdderAccounts(s, i, woken, task);
    case _ => MovesOfOthersAreNoCalls(s, step);
  }

  /** Over any run, a task has been accepted, refused or is still with its caller as often as it was
      passed to AddTask. */
  lemma {:induction false} RunAccounts(s: System, steps: seq<Step>, t: System, task: P.Task)
    requires Reaches(s, steps, t)
    ensures Accounted(t, task) == Accounted(s, task) + CallsFor(steps, task)
    decreases |steps|
  {
    if steps != [] {
      StepAccounts(s, steps[0], task);
      hide Enabled, Next, Accounted;
      RunAccounts(Next(s, steps[0]), steps[1..], t, task);
    }
  }

  /** No thread inside the pool can move. */
  ghost predicate AtRest(s: System) {
    forall step :: IsOwnStep(step) ==> !Enabled(s, step)
  }

  lemma RestMeansFree(s: System)
    requires Reachable(s) && AtRest(s)
    ensures s.holder == None
  {
    if s.holder.Some? {
      var step := HolderMoves(s);
      assert false;
    }
  }

  /** A caller inside AddTask can move unless it waits for the mutex. */
  lemma AdderCanMove(s: System, i: nat) returns (woken: Option<nat>)
    requires i < |s.adders| && !s.adders[i].Outside? && (s.adders[i].Locking? ==> s.holder == None)
    ensures Enabled(s, AdderMoves(i, woken))
  {
    woken := None;
    if Sleeping in s.workers && s.adders[i].Notifying? {
      var j :| 0 <= j < |s.workers| && s.workers[j] == Sleeping;
      woken := Some(j);
    }
  }

  lemma RestMeansOutside(s: System)
    requires Reachable(s) && AtRest(s)
    ensures forall i :: 0 <= i < |s.adders| ==> s.adders[i].Outside?
    ensures forall i :: 0 <= i < |s.stoppers| ==> s.stoppers[i].Outside?
    ensures forall i :: 0 <= i < |s.workers| ==> s.workers[i].Sleeping? || s.workers[i].Gone?
  {
    RestMeansFree(s);
    ReachableInv(s);
    forall i | 0 <= i < |s.adders| ensures s.adders[i].Outside? {
      if !s.adders[i].Outside? {
        var woken := AdderCanMove(s, i);
        assert false;
      }
    }
    forall i | 0 <= i < |s.stoppers| ensures s.stoppers[i].Outside? {
      assert !Enabled(s, StopperMoves(i));
    }
    forall i | 0 <= i < |s.workers| ensures s.workers[i].Sleeping? || s.workers[i].Gone? {
      assert !Enabled(s, WorkerMoves(i));
    }
  }

  lemma RestIsQuiet(s: System)
    requires Reachable(s) && AtRest(s)
    ensures P.Quiet(Abs(s))
  {
    RestMeansOutside(s);
    SumZero(AdderOwes, s.adders);
    SumZero(StopperOwes, s.stoppers);
    hide AtRest, Reachable, Sum;
  }

  /** From call to run: where no thread inside the pool can move any more, every task has been run or
      refused as often as it was passed to AddTask; none was refused unless the pool was stopped, and
      if it was, all workers are gone. */
  lemma EveryCallIsAnswered(s0: System, steps: seq<Step>, t: System)
    requires Init(s0) && Reaches(s0, steps, t) && AtRest(t)
    ensures forall task :: CallsFor(steps, task) == multiset(t.finished)[task] + multiset(t.refused)[task]
    ensures t.refused != [] ==> t.stop
    ensures t.stop ==> AllGone(t)
  {
    assert Reachable(t);
    ReachableInv(t);
    RestMeansOutside(t);
    RestIsQuiet(t);
    SectionsAreAtomic(t);
    P.QuietMeansAllRun(Abs(t));
    assert P.AllExited(Abs(t)) ==> forall i :: 0 <= i < |t.workers| ==> Abs(t).workers[i].Exited?;
    hide Reachable, Reaches, AtRest, Inv, P.Quiet, P.Reachable;
    forall task ensures CallsFor(steps, task) == multiset(t.finished)[task] + multiset(t.refused)[task] {
      RunAccounts(s0, steps, t, task);
      SumZero(Carries(task), s0.adders);
      SumZero(Carries(task), t.adders);
    }
  }
}
