/** The class of base/thread_pool.h. Each method is one step of ThreadPoolProtocol: a section under
    `mutex_`, a notification, or the end of a task. */
module ThreadPools {
  import opened BlockingQueues
  import opened Wrappers
  import P = ThreadPoolProtocol

  datatype AddResult = Added | ThrewStopped

  datatype Turn = Slept | Left | Got(task: P.Task) | Blocked

  class ThreadPool {
    var stop: bool
    const readyTasks: BlockingQueue<P.Task>
    var workers: seq<P.Worker>   // the worker threads, and what cond_ knows of them
    var ones: nat                // notify_one calls still to come
    var alls: nat                // notify_all calls still to come
    ghost var accepted: seq<P.Task>
    ghost var taken: seq<P.Task>
    ghost var finished: seq<P.Task>

    ghost function Abs(): P.Pool
      reads this, readyTasks
    {
      P.Pool(stop, readyTasks.queue, workers, ones, alls, accepted, taken, finished)
    }

    /** The default constructor followed by Init(n). */
    constructor (n: nat)
      requires n >= 1
      ensures P.Init(Abs()) && |workers| == n
      ensures fresh(readyTasks)
    {
      stop := false;
      readyTasks := new BlockingQueue();
      workers := seq(n, _ => P.AtTop);
      ones, alls := 0, 0;
      accepted, taken, finished := [], [], [];
    }

    /** The section under the lock; the notification is left to the caller. */
    method AddTask(task: P.Task) returns (r: AddResult)
      modifies this, readyTasks
      ensures r == if old(stop) then ThrewStopped else Added
      ensures accepted == old(accepted) + (if old(stop) then [] else [task])
      ensures readyTasks.queue == old(readyTasks.queue) + (if old(stop) then [] else [task])
      ensures Abs() == if old(stop) then old(Abs()) else P.Next(old(Abs()), P.AddTask(task))
    {
      if stop {
        return ThrewStopped;
      }
      readyTasks.Push(task);
      accepted := accepted + [task];
      ones := ones + 1;
      return Added;
    }

    method Stop()
      modifies this
      ensures Abs() == P.Next(old(Abs()), P.Stop) && stop
    {
      stop := true;
      alls := alls + 1;
    }

    /** Worker i at the top of its loop: the wait, the test for the exit and WaitTake. It never
        blocks inside WaitTake. */
    method Enter(i: nat) returns (turn: Turn)
      requires i < |workers| && workers[i].AtTop?
      modifies this, readyTasks
      ensures Abs() == P.Next(old(Abs()), P.Enter(i)) && readyTasks.waiting == old(readyTasks.waiting)
      ensures match turn
              case Slept => workers[i].Asleep? && !stop && readyTasks.queue == old(readyTasks.queue) == []
              case Left => workers[i].Exited? && stop && readyTasks.queue == old(readyTasks.queue) == []
              case Got(task) => workers[i] == P.Running(task) && [task] + readyTasks.queue == old(readyTasks.queue)
              case Blocked => false
    {
      var empty := readyTasks.Empty();
      if !(stop || !empty) {
        workers := workers[i := P.Asleep];
        return Slept;
      }
      if stop && empty {
        workers := workers[i := P.Exited];
        return Left;
      }
      var task := readyTasks.WaitTake();
      if task.None? {
        return Blocked;
      }
      workers := workers[i := P.Running(task.value)];
      taken := taken + [task.value];
      return Got(task.value);
    }

    method Finish(i: nat)
      requires i < |workers| && workers[i].Running?
      modifies this
      ensures Abs() == P.Next(old(Abs()), P.Finish(i))
    {
      finished := finished + [workers[i].task];
      workers := workers[i := P.AtTop];
    }

    /** The condition variable wakes one sleeper, whichever it likes, if there is one. */
    method NotifyOne() returns (woken: Option<nat>)
      requires ones > 0
      modifies this
      ensures P.Enabled(old(Abs()), P.NotifyOne(woken))
      ensures Abs() == P.Next(old(Abs()), P.NotifyOne(woken))
    {
      ones := ones - 1;
      if P.Asleep in workers {
        var i :| 0 <= i < |workers| && workers[i] == P.Asleep;
        workers := workers[i := P.AtTop];
        return Some(i);
      }
      return None;
    }

    method NotifyAll()
      requires alls > 0
      modifies this
      ensures Abs() == P.Next(old(Abs()), P.NotifyAll)
    {
      alls := alls - 1;
      for k := 0 to |workers|
        invariant Abs().(workers := old(workers)) == old(Abs()).(alls := old(alls) - 1)
        invariant |workers| == |old(workers)|
        invariant forall j :: 0 <= j < k ==> workers[j] == P.WakeAll(old(workers))[j]
        invariant forall j :: k <= j < |workers| ==> workers[j] == old(workers)[j]
      {
        if workers[k].Asleep? {
          workers := workers[k := P.AtTop];
        }
      }
    }
  }
}
