/** The classes of base/threadsafe_queue.h. Each method is the section it runs under its lock. */
module BlockingQueues {
  import opened Wrappers
  import P = BlockingQueueProtocol

  /** `waiting` is the number of threads in `cond_.wait`. */
  class BlockingQueue<T> {
    var queue: seq<T>
    ghost var waiting: nat

    constructor ()
      ensures queue == [] && waiting == 0
    {
      queue, waiting := [], 0;
    }

    /** Wakes whoever waits. */
    method Push(value: T)
      modifies this
      ensures queue == old(queue) + [value] && waiting == 0
    {
      queue := queue + [value];
      waiting := 0;
    }

    /** None: the caller blocks in `cond_.wait`. */
    method WaitTake() returns (value: Option<T>)
      modifies this
      ensures old(queue) == [] ==> value == None && queue == [] && waiting == old(waiting) + 1
      ensures old(queue) != [] ==> value.Some? && [value.value] + queue == old(queue) && waiting == old(waiting)
    {
      if queue == [] {
        waiting := waiting + 1;
        return None;
      }
      value := Some(queue[0]);
      queue := queue[1..];
    }

    method Empty() returns (empty: bool)
      ensures empty <==> queue == []
    {
      empty := queue == [];
    }
  }

  /** `pushers` and `takers` are the threads that use the queue and what the condition variables
      know of them; the queue itself is `capacitySize` and `queue`. */
  class BoundedBlockingQueue {
    const capacitySize: int
    var queue: seq<P.Item>
    var pushers: seq<P.Pusher>
    var takers: seq<P.Taker>
    ghost var pushed: seq<P.Item>
    ghost var taken: seq<P.Item>

    ghost predicate InRange() {
      -0x8000_0000 <= capacitySize < 0x8000_0000
    }

    ghost function Abs(): P.Machine
      requires InRange()
      reads this
    {
      P.Machine(Some(P.LimitOf(capacitySize)), queue, pushers, takers, pushed, taken)
    }

    /** The state is one that the threads can reach. */
    ghost predicate Valid()
      reads this
    {
      InRange() && P.Reachable(Abs())
    }

    constructor (capacity: int, nPushers: nat, nTakers: nat)
      requires -0x8000_0000 <= capacity < 0x8000_0000
      ensures Valid() && capacitySize == capacity && P.Init(Abs())
      ensures |pushers| == nPushers && |takers| == nTakers
    {
      capacitySize := capacity;
      queue, pushed, taken := [], [], [];
      pushers := seq(nPushers, _ => P.Pusher.Idle);
      takers := seq(nTakers, _ => P.Taker.Idle);
      new;
      P.InitReachable(Abs());
    }

    lemma WithinCapacity()
      requires Valid()
      ensures capacitySize >= 0 ==> |queue| <= capacitySize
    {
      P.BoundedFifo(Abs());
    }

    /** Thread i calls Push. */
    method CallPush(i: nat, item: P.Item)
      requires Valid() && i < |pushers| && pushers[i].Idle?
      modifies this`pushers
      ensures Valid() && P.Takes(old(Abs()), P.CallPush(i, item), Abs())
      ensures pushers == old(pushers)[i := P.Pusher.Wants(item)]
    {
      hide P.Reachable;
      ghost var s := Abs();
      pushers := pushers[i := P.Pusher.Wants(item)];
      P.NextReachable(s, P.CallPush(i, item), Abs());
    }

    /** Thread i calls WaitTake. */
    method CallTake(i: nat)
      requires Valid() && i < |takers| && takers[i].Idle?
      modifies this`takers
      ensures Valid() && P.Takes(old(Abs()), P.CallTake(i), Abs())
      ensures takers == old(takers)[i := P.Taker.Wants]
    {
      hide P.Reachable;
      ghost var s := Abs();
      takers := takers[i := P.Taker.Wants];
      P.NextReachable(s, P.CallTake(i), Abs());
    }

    /** Thread i looks at the predicate of Push: it waits exactly if the queue is full. */
    method Push(i: nat)
      requires Valid() && i < |pushers| && pushers[i].Wants?
      modifies this
      ensures Valid() && P.Takes(old(Abs()), P.Push(i), Abs())
      ensures var item := old(pushers)[i].item;
              if 0 <= capacitySize <= |old(queue)|
              then queue == old(queue) && pushers == old(pushers)[i := P.Pusher.Asleep(item)]
              else |old(queue)| < 0xFFFF_FFFF_8000_0000 ==>
                queue == old(queue) + [item] && pushers == old(pushers)[i := P.Pusher.Idle]
    {
      hide P.Reachable;
      ghost var s := Abs();
      var item := pushers[i].item;
      if |queue| < P.LimitOf(capacitySize) {
        queue := queue + [item];
        pushed := pushed + [item];
        pushers := pushers[i := P.Pusher.Idle];
        NotifyTakers();
      } else {
        pushers := pushers[i := P.Pusher.Asleep(item)];
      }
      P.NextReachable(s, P.Push(i), Abs());
    }

    /** Thread i looks at the predicate of WaitTake: it waits exactly if the queue is empty. */
    method WaitTake(i: nat) returns (value: Option<P.Item>)
      requires Valid() && i < |takers| && takers[i].Wants?
      modifies this
      ensures Valid() && P.Takes(old(Abs()), P.Take(i), Abs())
      ensures old(queue) == [] ==> value == None && queue == [] && takers == old(takers)[i := P.Taker.Asleep]
      ensures old(queue) != [] ==>
                value.Some? && [value.value] + queue == old(queue) && takers == old(takers)[i := P.Taker.Idle]
    {
      hide P.Reachable;
      ghost var s := Abs();
      if queue == [] {
        takers := takers[i := P.Taker.Asleep];
        value := None;
      } else {
        value := Some(queue[0]);
        taken := taken + [queue[0]];
        queue := queue[1..];
        takers := takers[i := P.Taker.Idle];
        NotifyPushers();
      }
      P.NextReachable(s, P.Take(i), Abs());
    }

    /** `not_empty_cond_.notify_all()` */
    method NotifyTakers()
      modifies this`takers
      ensures takers == P.AllTakersAwake(old(takers))
    {
      for k := 0 to |takers|
        invariant |takers| == |old(takers)|
        invariant forall j :: 0 <= j < k ==> takers[j] == P.AllTakersAwake(old(takers))[j]
        invariant forall j :: k <= j < |takers| ==> takers[j] == old(takers)[j]
      {
        if takers[k].Asleep? {
          takers := takers[k := P.Taker.Wants];
        }
      }
    }

    /** `not_full_cond_.notify_all()` */
    method NotifyPushers()
      modifies this`pushers
      ensures pushers == P.AllPushersAwake(old(pushers))
    {
      for k := 0 to |pushers|
        invariant |pushers| == |old(pushers)|
        invariant forall j :: 0 <= j < k ==> pushers[j] == P.AllPushersAwake(old(pushers))[j]
        invariant forall j :: k <= j < |pushers| ==> pushers[j] == old(pushers)[j]
      {
        if pushers[k].Asleep? {
          pushers := pushers[k := P.Pusher.Wants(pushers[k].item)];
        }
      }
    }
  }
}
