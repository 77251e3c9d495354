/** The two queues of base/threadsafe_queue.h under any number of pushing and taking threads. Both
    notify while they still hold the lock, so a call that is not put to sleep is one step; a
    sleeping thread may also wake for no reason, and every wake leads back to the predicate.

    `limit` is the capacity of BoundedBlockingQueue; None makes the machine the BlockingQueue, whose
    Push never waits (its WaitTake notifies nobody, which is the same when no pusher sleeps). */
module BlockingQueueProtocol {
  import opened Sums
  import opened Wrappers

  /** Stands for the element type T. */
  type Item = nat

  datatype Pusher = Idle | Wants(item: Item) | Asleep(item: Item)
  datatype Taker = Idle | Wants | Asleep

  /** `pushed` and `taken` are history variables. */
  datatype Machine = Machine(
    limit: Option<nat>, queue: seq<Item>, pushers: seq<Pusher>, takers: seq<Taker>,
    pushed: seq<Item>, taken: seq<Item>)

  ghost predicate Init(s: Machine) {
    && s == Machine(s.limit, [], s.pushers, s.takers, [], [])
    && (forall i :: 0 <= i < |s.pushers| ==> s.pushers[i] == Pusher.Idle)
    && (forall i :: 0 <= i < |s.takers| ==> s.takers[i] == Taker.Idle)
  }

  /** `queue_.size() < capacity_size_` compares a size_t with an int, which is converted: a negative
      capacity is a huge one. */
  function LimitOf(capacity: int): (limit: nat)
    requires -0x8000_0000 <= capacity < 0x8000_0000
    ensures capacity >= 0 ==> limit == capacity
    ensures capacity < 0 ==> limit >= 0xFFFF_FFFF_8000_0000
  {
    if capacity >= 0 then capacity else 0x1_0000_0000_0000_0000 + capacity
  }

  datatype Step =
    | CallPush(i: nat, item: Item)
    | Push(i: nat)
    | WakePusher(i: nat)
    | CallTake(i: nat)
    | Take(i: nat)
    | WakeTaker(i: nat)

  predicate Enabled(s: Machine, step: Step) {
    match step
    case CallPush(i, _) => i < |s.pushers| && s.pushers[i].Idle?
    case Push(i) => i < |s.pushers| && s.pushers[i].Wants?
    case WakePusher(i) => i < |s.pushers| && s.pushers[i].Asleep?
    case CallTake(i) => i < |s.takers| && s.takers[i].Idle?
    case Take(i) => i < |s.takers| && s.takers[i].Wants?
    case WakeTaker(i) => i < |s.takers| && s.takers[i].Asleep?
  }

  predicate HasRoom(s: Machine) {
    s.limit.Some? ==> |s.queue| < s.limit.value
  }

  function AllPushersAwake(ps: seq<Pusher>): (r: seq<Pusher>)
    ensures |r| == |ps|
    ensures forall i :: 0 <= i < |ps| ==> r[i] == if ps[i].Asleep? then Pusher.Wants(ps[i].item) else ps[i]
  {
    seq(|ps|, i requires 0 <= i < |ps| => if ps[i].Asleep? then Pusher.Wants(ps[i].item) else ps[i])
  }

  function AllTakersAwake(ts: seq<Taker>): (r: seq<Taker>)
    ensures |r| == |ts|
    ensures forall i :: 0 <= i < |ts| ==> r[i] == if ts[i].Asleep? then Taker.Wants else ts[i]
  {
    seq(|ts|, i requires 0 <= i < |ts| => if ts[i].Asleep? then Taker.Wants else ts[i])
  }

  function PushStep(s: Machine, i: nat): Machine
    requires i < |s.pushers| && s.pushers[i].Wants?
  {
    var item := s.pushers[i].item;
    if HasRoom(s) then
      s.(queue := s.queue + [item], pushed := s.pushed + [item],
         pushers := s.pushers[i := Pusher.Idle], takers := AllTakersAwake(s.takers))
    else
      s.(pushers := s.pushers[i := Pusher.Asleep(item)])
  }

  function TakeStep(s: Machine, i: nat): Machine
    requires i < |s.takers| && s.takers[i].Wants?
  {
    if s.queue != [] then
      s.(queue := s.queue[1..], taken := s.taken + [s.queue[0]],
         takers := s.takers[i := Taker.Idle], pushers := AllPushersAwake(s.pushers))
    else
      s.(takers := s.takers[i := Taker.Asleep])
  }

  function Next(s: Machine, step: Step): Machine
    requires Enabled(s, step)
  {
    match step
    case CallPush(i, item) => s.(pushers := s.pushers[i := Pusher.Wants(item)])
    case Push(i) => PushStep(s, i)
    case WakePusher(i) => s.(pushers := s.pushers[i := Pusher.Wants(s.pushers[i].item)])
    case CallTake(i) => s.(takers := s.takers[i := Taker.Wants])
    case Take(i) => TakeStep(s, i)
    case WakeTaker(i) => s.(takers := s.takers[i := Taker.Wants])
  }

  /** The step is possible in s and leads to t. */
  ghost predicate Takes(s: Machine, step: Step, t: Machine) {
    Enabled(s, step) && t == Next(s, step)
  }

  ghost predicate Reaches(s: Machine, steps: seq<Step>, t: Machine)
    decreases |steps|
  {
    if steps == [] then s == t
    else Enabled(s, steps[0]) && Reaches(Next(s, steps[0]), steps[1..], t)
  }

  ghost predicate Reachable(s: Machine) {
    exists s0, steps :: Init(s0) && Reaches(s0, steps, s)
  }

  // ------------------------------------------------------------------ safety over all runs

  predicate TakerSleeps(s: Machine) {
    Taker.Asleep in s.takers
  }

  predicate PusherSleeps(s: Machine) {
    exists i :: 0 <= i < |s.pushers| && s.pushers[i].Asleep?
  }

  ghost predicate Inv(s: Machine) {
    && (s.limit.Some? ==> |s.queue| <= s.limit.value)
    && s.pushed == s.taken + s.queue
    && (TakerSleeps(s) ==> s.queue == [])
    && (PusherSleeps(s) ==> !HasRoom(s))
  }

  lemma StepKeepsInv(s: Machine, step: Step)
    requires Inv(s) && Enabled(s, step)
    ensures Inv(Next(s, step))
  {
    var t := Next(s, step);
    assert TakerSleeps(t) ==> TakerSleeps(s) || step.Take?;
    assert PusherSleeps(t) ==> PusherSleeps(s) || step.Push?;
  }

  lemma {:induction false} RunKeepsInv(s: Machine, steps: seq<Step>, t: Machine)
    requires Inv(s) && Reaches(s, steps, t)
    ensures Inv(t) && t.limit == s.limit
    decreases |steps|
  {
    if steps != [] {
      StepKeepsInv(s, steps[0]);
      assert Next(s, steps[0]).limit == s.limit;
      hide Enabled, Next, Inv;
      RunKeepsInv(Next(s, steps[0]), steps[1..], t);
    }
  }

  lemma InitReachable(s: Machine)
    requires Init(s)
    ensures Reachable(s)
  {
    assert Reaches(s, [], s);
  }

  lemma {:induction false} OneMoreStep(s: Machine, steps: seq<Step>, t: Machine, step: Step, u: Machine)
    requires Reaches(s, steps, t) && Takes(t, step, u)
    ensures Reaches(s, steps + [step], u)
    decreases |steps|
  {
    hide Enabled, Next;
    if steps == [] {
      assert ([step])[1..] == [];
    } else {
      assert (steps + [step])[1..] == steps[1..] + [step];
      OneMoreStep(Next(s, steps[0]), steps[1..], t, step, u);
    }
  }

  lemma NextReachable(s: Machine, step: Step, t: Machine)
    requires Reachable(s) && Takes(s, step, t)
    ensures Reachable(t)
  {
    hide Init, Enabled, Next;
    var s0, steps :| Init(s0) && Reaches(s0, steps, s);
    OneMoreStep(s0, steps, s, step, t);
  }

  lemma ReachableInv(s: Machine)
    requires Reachable(s)
    ensures Inv(s)
  {
    var s0, steps :| Init(s0) && Reaches(s0, steps, s);
    RunKeepsInv(s0, steps, s);
  }

  /** The queue never outgrows its capacity and is first in, first out over all threads; a taker
      sleeps only while it is empty, a pusher only while it is full. */
  lemma BoundedFifo(s: Machine)
    requires Reachable(s)
    ensures s.limit.Some? ==> |s.queue| <= s.limit.value
    ensures s.pushed == s.taken + s.queue
    ensures TakerSleeps(s) ==> s.queue == []
    ensures PusherSleeps(s) ==> s.limit.Some? && |s.queue| == s.limit.value
  {
    ReachableInv(s);
  }

  /** Built with a capacity of n >= 0, the queue never holds more than n. */
  lemma CapacityIsKept(s0: Machine, capacity: int, steps: seq<Step>, t: Machine)
    requires 0 <= capacity < 0x8000_0000
    requires Init(s0) && s0.limit == Some(LimitOf(capacity)) && Reaches(s0, steps, t)
    ensures |t.queue| <= capacity
  {
    RunKeepsInv(s0, steps, t);
  }

  /** How often the item is passed to Push in a run. */
  function CallsFor(steps: seq<Step>, item: Item): nat {
    if steps == [] then 0
    else (if steps[0].CallPush? && steps[0].item == item then 1 else 0) + CallsFor(steps[1..], item)
  }

  /** Counts the threads that still have this item to push. */
  function Carries(item: Item): Pusher -> nat {
    p => if p == Pusher.Wants(item) || p == Pusher.Asleep(item) then 1 else 0
  }

  /** Where the calls with this item have got to. */
  function Accounted(s: Machine, item: Item): nat {
    multiset(s.pushed)[item] + Sum(Carries(item), s.pushers)
  }

  lemma CountOneMore(items: seq<Item>, item: Item, one: Item)
    ensures multiset(items + [one])[item] == multiset(items)[item] + (if one == item then 1 else 0)
  {
    assert multiset(items + [one]) == multiset(items) + multiset{one};
  }

  lemma WakingKeepsItems(ps: seq<Pusher>, item: Item)
    ensures Sum(Carries(item), AllPushersAwake(ps)) == Sum(Carries(item), ps)
  {
    SumGain(Carries(item), ps, AllPushersAwake(ps), 0);
    SumGain(Carries(item), AllPushersAwake(ps), ps, 0);
  }

  lemma PushAccounts(s: Machine, i: nat, item: Item)
    requires i < |s.pushers| && s.pushers[i].Wants?
    ensures Accounted(PushStep(s, i), item) == Accounted(s, item)
  {
    SumUpdate(Carries(item), s.pushers, i, PushStep(s, i).pushers[i]);
    hide Sum;
    CountOneMore(s.pushed, item, s.pushers[i].item);
  }

  lemma StepAccounts(s: Machine, step: Step, item: Item)
    requires Enabled(s, step)
    ensures Accounted(Next(s, step), item)
         == Accounted(s, item) + (if step.CallPush? && step.item == item then 1 else 0)
  {
    hide Sum, PushStep;
    match step
    case CallPush(i, one) => SumUpdate(Carries(item), s.pushers, i, Pusher.Wants(one));
    case Push(i) => PushAccounts(s, i, item);
    case WakePusher(i) => SumUpdate(Carries(item), s.pushers, i, Pusher.Wants(s.pushers[i].item));
    case Take(i) => WakingKeepsItems(s.pushers, item);
    case _ =>
  }

  /** Over any run, an item has been pushed or is still with its thread, awake or asleep, as often as
      it was passed to Push. */
  lemma {:induction false} RunAccounts(s: Machine, steps: seq<Step>, t: Machine, item: Item)
    requires Reaches(s, steps, t)
    ensures multiset(t.pushed)[item] + Sum(Carries(item), t.pushers) == Accounted(s, item) + CallsFor(steps, item)
    decreases |steps|
  {
    if steps != [] {
      StepAccounts(s, steps[0], item);
      hide Enabled, Next, Sum;
      RunAccounts(Next(s, steps[0]), steps[1..], t, item);
    }
  }

  ghost predicate CanSleepTogether(s0: Machine) {
    exists steps, t :: Reaches(s0, steps, t) && TakerSleeps(t) && PusherSleeps(t)
  }

  lemma ZeroCapacitySleeps(s0: Machine)
    requires Init(s0) && |s0.pushers| > 0 && |s0.takers| > 0 && s0.limit == Some(0)
    ensures CanSleepTogether(s0)
  {
    var s1 := Next(s0, CallTake(0));
    var s2 := Next(s1, Take(0));
    var s3 := Next(s2, CallPush(0, 0));
    var s4 := Next(s3, Push(0));
    assert s4.takers[0].Asleep? && s4.pushers[0].Asleep?;
    var steps := [CallTake(0), Take(0), CallPush(0, 0), Push(0)];
    assert steps[1..] == [Take(0), CallPush(0, 0), Push(0)];
    assert steps[1..][1..] == [CallPush(0, 0), Push(0)];
    assert steps[1..][1..][1..] == [Push(0)];
    assert steps[1..][1..][1..][1..] == [];
    assert Reaches(s4, [], s4);
    assert Reaches(s3, [Push(0)], s4);
    assert Reaches(s2, [CallPush(0, 0), Push(0)], s4);
    assert Reaches(s1, [Take(0), CallPush(0, 0), Push(0)], s4);
    assert Reaches(s0, steps, s4);
  }

  /** Takers and pushers can be asleep together, each waiting for the other, exactly when the
      capacity is zero. */
  lemma SleepTogetherIff(s0: Machine)
    requires Init(s0) && |s0.pushers| > 0 && |s0.takers| > 0
    ensures CanSleepTogether(s0) <==> s0.limit == Some(0)
  {
    if CanSleepTogether(s0) {
      var steps, t :| Reaches(s0, steps, t) && TakerSleeps(t) && PusherSleeps(t);
      RunKeepsInv(s0, steps, t);
    }
    if s0.limit == Some(0) {
      ZeroCapacitySleeps(s0);
    }
  }

  // ------------------------------------------------------------------ progress

  function PusherCalls(p: Pusher): nat { if p.Idle? then 0 else 1 }
  function TakerCalls(t: Taker): nat { if t.Idle? then 0 else 1 }
  function PusherWants(p: Pusher): nat { if p.Wants? then 1 else 0 }
  function TakerWants(t: Taker): nat { if t.Wants? then 1 else 0 }

  /** Calls that have not returned. */
  function Calls(s: Machine): nat {
    Sum(PusherCalls, s.pushers) + Sum(TakerCalls, s.takers)
  }

  function Threads(s: Machine): nat {
    |s.pushers| + |s.takers|
  }

  /** Each call that completes may wake every other thread; each of those looks at the queue once
      more before it sleeps again. */
  function StepsToQuiet(s: Machine): nat {
    Calls(s) * (Threads(s) + 1) + Sum(PusherWants, s.pushers) + Sum(TakerWants, s.takers)
  }

  predicate IsOwnStep(step: Step) {
    step.Push? || step.Take?
  }

  lemma OneCallLess(calls: nat, n: nat)
    requires calls > 0
    ensures calls * n == (calls - 1) * n + n
  {}

  lemma PushCosts(s: Machine, i: nat)
    requires i < |s.pushers| && s.pushers[i].Wants?
    ensures StepsToQuiet(PushStep(s, i)) < StepsToQuiet(s)
  {
    var t := PushStep(s, i);
    SumUpdate(PusherCalls, s.pushers, i, t.pushers[i]);
    SumUpdate(PusherWants, s.pushers, i, t.pushers[i]);
    SumGain(TakerCalls, s.takers, AllTakersAwake(s.takers), 0);
    SumGain(TakerCalls, AllTakersAwake(s.takers), s.takers, 0);
    SumGain(TakerWants, s.takers, AllTakersAwake(s.takers), 1);
    hide Sum, AllTakersAwake;
    if HasRoom(s) {
      OneCallLess(Calls(s), Threads(s) + 1);
    }
  }

  lemma TakeCosts(s: Machine, i: nat)
    requires i < |s.takers| && s.takers[i].Wants?
    ensures StepsToQuiet(TakeStep(s, i)) < StepsToQuiet(s)
  {
    var t := TakeStep(s, i);
    SumUpdate(TakerCalls, s.takers, i, t.takers[i]);
    SumUpdate(TakerWants, s.takers, i, t.takers[i]);
    SumGain(PusherCalls, s.pushers, AllPushersAwake(s.pushers), 0);
    SumGain(PusherCalls, AllPushersAwake(s.pushers), s.pushers, 0);
    SumGain(PusherWants, s.pushers, AllPushersAwake(s.pushers), 1);
    hide Sum, AllPushersAwake;
    if s.queue != [] {
      OneCallLess(Calls(s), Threads(s) + 1);
    }
  }

  /** Without new calls and causeless wakeups the threads come to rest after a bounded number of
      steps. */
  lemma {:induction false} QueueGoesQuiet(s: Machine, steps: seq<Step>, t: Machine)
    requires Reaches(s, steps, t) && forall k :: 0 <= k < |steps| ==> IsOwnStep(steps[k])
    ensures |steps| + StepsToQuiet(t) <= StepsToQuiet(s)
    decreases |steps|
  {
    if steps != [] {
      assert IsOwnStep(steps[0]);
      match steps[0] {
        case Push(i) => PushCosts(s, i);
        case Take(i) => TakeCosts(s, i);
      }
      hide Enabled, Next, StepsToQuiet;
      QueueGoesQuiet(Next(s, steps[0]), steps[1..], t);
    }
  }

  ghost predicate Quiet(s: Machine) {
    forall step :: IsOwnStep(step) ==> !Enabled(s, step)
  }

  /** At rest every call has returned, except takes on an empty queue or pushes on a full one; with
      a capacity above zero these are never both. */
  lemma QuietMeansOneSided(s: Machine)
    requires Reachable(s) && Quiet(s)
    ensures (forall i :: 0 <= i < |s.takers| ==> s.takers[i].Idle?) || s.queue == []
    ensures (forall i :: 0 <= i < |s.pushers| ==> s.pushers[i].Idle?) || !HasRoom(s)
    ensures s.limit != Some(0) ==>
      || (forall i :: 0 <= i < |s.takers| ==> s.takers[i].Idle?)
      || (forall i :: 0 <= i < |s.pushers| ==> s.pushers[i].Idle?)
  {
    ReachableInv(s);
    forall i | 0 <= i < |s.takers| ensures s.takers[i].Idle? || s.takers[i].Asleep? {
      assert !Enabled(s, Take(i));
    }
    forall i | 0 <= i < |s.pushers| ensures s.pushers[i].Idle? || s.pushers[i].Asleep? {
      assert !Enabled(s, Push(i));
    }
    assert !TakerSleeps(s) ==> forall i :: 0 <= i < |s.takers| ==> s.takers[i].Idle?;
    assert !PusherSleeps(s) ==> forall i :: 0 <= i < |s.pushers| ==> s.pushers[i].Idle?;
  }
}
