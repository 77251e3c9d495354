/** The double-buffered logger of base/async_logging.h as a transition system: any number of
    producers call Append, one consumer runs ConsumeLog. Each section under the mutex is one step;
    producers may step between any two steps of the consumer, also while it waits. */
module AsyncLoggingProtocol {
  import opened Wrappers

  /** A DataBuffer: which one it is, and the bytes before `cur_`. */
  datatype Buffer = Buffer(id: nat, text: string)

  /** Where the consumer stands in ConsumeLog. */
  datatype Consumer =
    | LoopHead            // about to read stop_
    | BeforeLock          // the three asserts passed, about to lock
    | Waiting             // in wait_for, lock released
    | Swapped             // lock released again, about to look at the number of buffers
    | Writing(next: nat)  // in the loop over write_buffers
    | Exited

  /** `size` is the template argument SIZE. `appended` is a history variable: every message passed
      to Append so far, in order. */
  datatype Logger = Logger(
    size: nat,
    current: Option<Buffer>, next: Option<Buffer>, buffers: seq<Buffer>, stop: bool,
    consumer: Consumer, buf1: Option<Buffer>, buf2: Option<Buffer>, writeBuffers: seq<Buffer>,
    output: string,
    appended: seq<string>)

  /** The state after construction and Start(). */
  function Start(size: nat): Logger {
    Logger(size, Some(Buffer(0, "")), Some(Buffer(1, "")), [], false,
           LoopHead, Some(Buffer(2, "")), Some(Buffer(3, "")), [], "", [])
  }

  ghost predicate Init(s: Logger) {
    s == Start(s.size)
  }

  datatype Step =
    | Append(msg: string)
    | Stop
    | CheckStop
    | Lock
    | Wake
    | CheckCount(notice: string)
    | WriteBuffer
    | Recycle

  // ------------------------------------------------------------------ the steps

  function Avail(b: Buffer, size: nat): int {
    size - |b.text|
  }

  /** DataBuffer::Append: a message that does not leave a byte free is dropped. */
  function AppendTo(b: Buffer, msg: string, size: nat): Buffer {
    if Avail(b, size) > |msg| then b.(text := b.text + msg) else b
  }

  /** Without a spare buffer the source calls Reset() through `current_buf_` after moving from it,
      which has no meaning: that call is not a step. */
  predicate AppendDefined(s: Logger, msg: string) {
    s.current.Some? && (Avail(s.current.value, s.size) > |msg| || s.next.Some?)
  }

  /** The full buffer is queued and the spare takes its place. */
  function HandedOver(s: Logger): Logger
    requires s.current.Some?
  {
    s.(buffers := s.buffers + [s.current.value], current := s.next, next := None)
  }

  function Placed(s: Logger, msg: string): Logger
    requires AppendDefined(s, msg)
  {
    var s := if Avail(s.current.value, s.size) > |msg| then s else HandedOver(s);
    s.(current := Some(AppendTo(s.current.value, msg, s.size)))
  }

  function AppendStep(s: Logger, msg: string): Logger
    requires AppendDefined(s, msg)
  {
    Placed(s, msg).(appended := s.appended + [msg])
  }

  /** The asserts at the top of the loop body. */
  predicate TopAsserts(s: Logger) {
    && s.buf1.Some? && s.buf1.value.text == ""
    && s.buf2.Some? && s.buf2.value.text == ""
    && s.writeBuffers == []
  }

  /** The full and the current buffer go to the consumer, and one of its spares takes their place. */
  function Taken(s: Logger): Logger
    requires s.current.Some?
  {
    s.(writeBuffers := s.buffers + [s.current.value],
       buffers := s.writeBuffers,
       current := s.buf1,
       buf1 := None)
  }

  function SwapStep(s: Logger): Logger
    requires s.current.Some?
  {
    var s := Taken(s);
    s.(next := if s.next.Some? then s.next else s.buf2,
       buf2 := if s.next.Some? then s.buf2 else None,
       consumer := Swapped)
  }

  /** More than 25 buffers: a notice is written and all but two are dropped. */
  function CheckCountStep(s: Logger, notice: string): Logger {
    if |s.writeBuffers| > 25 then
      s.(output := s.output + notice, writeBuffers := s.writeBuffers[..2], consumer := Writing(0))
    else
      s.(consumer := Writing(0))
  }

  function Shrunk(bs: seq<Buffer>): seq<Buffer> {
    if |bs| > 2 then bs[..2] else bs
  }

  function CountNone(b: Option<Buffer>): nat {
    if b.None? then 1 else 0
  }

  /** The asserts before each `write_buffers.back()`. */
  predicate RecycleAsserts(s: Logger) {
    CountNone(s.buf1) + CountNone(s.buf2) <= |Shrunk(s.writeBuffers)|
  }

  function Reset(b: Buffer): Buffer {
    b.(text := "")
  }

  /** A missing spare is taken from the back of the written buffers and reset. */
  function Refill(spare: Option<Buffer>, bs: seq<Buffer>): (r: (Option<Buffer>, seq<Buffer>))
    requires CountNone(spare) <= |bs|
    ensures |r.1| == |bs| - CountNone(spare)
  {
    if spare.Some? then (spare, bs) else (Some(Reset(bs[|bs| - 1])), bs[..|bs| - 1])
  }

  function RecycleStep(s: Logger): Logger
    requires RecycleAsserts(s)
  {
    var (buf1, rest) := Refill(s.buf1, Shrunk(s.writeBuffers));
    var (buf2, _) := Refill(s.buf2, rest);
    s.(buf1 := buf1, buf2 := buf2, writeBuffers := [], consumer := LoopHead)
  }

  /** The last written buffer becomes a spare. */
  function LastToFirst(s: Logger): Logger
    requires s.writeBuffers != []
  {
    var n := |s.writeBuffers| - 1;
    s.(buf1 := Some(s.writeBuffers[n]), writeBuffers := s.writeBuffers[..n])
  }

  function LastToSecond(s: Logger): Logger
    requires s.writeBuffers != []
  {
    var n := |s.writeBuffers| - 1;
    s.(buf2 := Some(s.writeBuffers[n]), writeBuffers := s.writeBuffers[..n])
  }

  function ResetFirst(s: Logger): Logger
    requires s.buf1.Some?
  {
    s.(buf1 := Some(Reset(s.buf1.value)))
  }

  function ResetSecond(s: Logger): Logger
    requires s.buf2.Some?
  {
    s.(buf2 := Some(Reset(s.buf2.value)))
  }

  /** Both missing spares are taken from the back of the written buffers and reset. */
  function Refilled(s: Logger): Logger
    requires s.writeBuffers != [] && (s.buf2.None? ==> |s.writeBuffers| == 2)
  {
    var t := ResetFirst(LastToFirst(s));
    if s.buf2.None? then ResetSecond(LastToSecond(t)) else t
  }

  predicate Enabled(s: Logger, step: Step) {
    match step
    case Append(msg) => AppendDefined(s, msg)
    case Stop => true
    case CheckStop => s.consumer.LoopHead? && (s.stop || TopAsserts(s))
    case Lock => s.consumer.BeforeLock? && s.current.Some?
    case Wake => s.consumer.Waiting? && s.current.Some?
    case CheckCount(_) => s.consumer.Swapped? && s.writeBuffers != []
    case WriteBuffer => s.consumer.Writing? && s.consumer.next < |s.writeBuffers|
    case Recycle => s.consumer == Writing(|s.writeBuffers|) && RecycleAsserts(s)
  }

  function Next(s: Logger, step: Step): Logger
    requires Enabled(s, step)
  {
    match step
    case Append(msg) => AppendStep(s, msg)
    case Stop => s.(stop := true)
    case CheckStop => s.(consumer := if s.stop then Exited else BeforeLock)
    case Lock => if s.buffers == [] then s.(consumer := Waiting) else SwapStep(s)
    case Wake => SwapStep(s)
    case CheckCount(notice) => CheckCountStep(s, notice)
    case WriteBuffer =>
      s.(output := s.output + s.writeBuffers[s.consumer.next].text,
         consumer := Writing(s.consumer.next + 1))
    case Recycle => RecycleStep(s)
  }

  /** The step is defined in s and leads to t. */
  ghost predicate Takes(s: Logger, step: Step, t: Logger) {
    Enabled(s, step) && t == Next(s, step)
  }

  ghost predicate Reaches(s: Logger, steps: seq<Step>, t: Logger)
    decreases |steps|
  {
    if steps == [] then s == t
    else Enabled(s, steps[0]) && Reaches(Next(s, steps[0]), steps[1..], t)
  }

  lemma NoStep(s: Logger)
    ensures Reaches(s, [], s)
  {}

  lemma {:induction false} OneMoreStep(s: Logger, steps: seq<Step>, t: Logger, step: Step)
    requires Reaches(s, steps, t) && Enabled(t, step)
    ensures Reaches(s, steps + [step], Next(t, step))
    decreases |steps|
  {
    hide Enabled, Next;
    if steps == [] {
      assert ([step])[1..] == [];
    } else {
      assert (steps + [step])[1..] == steps[1..] + [step];
      OneMoreStep(Next(s, steps[0]), steps[1..], t, step);
    }
  }

  // ------------------------------------------------------------------ what the invariant speaks of

  /** What the log should hold: the messages shorter than a buffer, one after the other. */
  function Kept(msgs: seq<string>, size: nat): string {
    if msgs == [] then ""
    else Kept(msgs[..|msgs| - 1], size) + (var m := msgs[|msgs| - 1]; if |m| < size then m else "")
  }

  function Texts(bs: seq<Buffer>): string {
    if bs == [] then "" else bs[0].text + Texts(bs[1..])
  }

  /** What has been taken from the producers but not written yet. */
  function Unwritten(s: Logger): string {
    match s.consumer
    case Swapped => Texts(s.writeBuffers)
    case Writing(i) => if i <= |s.writeBuffers| then Texts(s.writeBuffers[i..]) else ""
    case _ => ""
  }

  /** What the producers have handed over or are still filling. */
  function Pending(s: Logger): string
    requires s.current.Some?
  {
    Texts(s.buffers) + s.current.value.text
  }

  function Copies(bs: seq<Buffer>, id: nat): nat {
    if bs == [] then 0 else (if bs[0].id == id then 1 else 0) + Copies(bs[1..], id)
  }

  function Held(b: Option<Buffer>, id: nat): nat {
    if b.Some? && b.value.id == id then 1 else 0
  }

  /** How many places own the buffer with this id. */
  function Owners(s: Logger, id: nat): nat {
    Held(s.current, id) + Held(s.next, id) + Copies(s.buffers, id)
    + Held(s.buf1, id) + Held(s.buf2, id) + Copies(s.writeBuffers, id)
  }

  predicate IsSpare(b: Option<Buffer>) {
    b.Some? ==> b.value.text == ""
  }

  predicate OutsideSwap(s: Logger) {
    s.consumer.LoopHead? || s.consumer.BeforeLock? || s.consumer.Waiting? || s.consumer.Exited?
  }

  /** The coupling of producers and consumer: the spare is gone exactly when a full buffer waits. */
  predicate Coupled(s: Logger) {
    && s.current.Some? && |s.current.value.text| <= s.size
    && (s.next.None? <==> s.buffers != [])
    && |s.buffers| <= 1
  }

  predicate ConsumerReady(s: Logger) {
    if OutsideSwap(s) then
      TopAsserts(s)
    else
      && s.buf1.None?
      && 1 <= |s.writeBuffers| <= 2
      && (s.buf2.None? <==> |s.writeBuffers| == 2)
      && (s.consumer.Writing? ==> s.consumer.next <= |s.writeBuffers|)
  }

  predicate Shape(s: Logger) {
    && Coupled(s) && ConsumerReady(s)
    && IsSpare(s.next) && IsSpare(s.buf1) && IsSpare(s.buf2)
    && (s.consumer.Exited? ==> s.stop)
  }

  ghost predicate ClosedPool(s: Logger) {
    forall id: nat :: Owners(s, id) == if id < 4 then 1 else 0
  }

  ghost predicate Conserved(s: Logger)
    requires s.current.Some?
  {
    s.output + Unwritten(s) + Pending(s) == Kept(s.appended, s.size)
  }

  ghost predicate Inv(s: Logger) {
    Shape(s) && ClosedPool(s) && Conserved(s)
  }

  // ------------------------------------------------------------------ every step keeps it

  lemma {:induction false} TextsAppend(a: seq<Buffer>, b: seq<Buffer>)
    ensures Texts(a + b) == Texts(a) + Texts(b)
  {
    if a == [] {
      assert a + b == b;
    } else {
      assert (a + b)[1..] == a[1..] + b;
      TextsAppend(a[1..], b);
    }
  }

  lemma TextsOne(b: Buffer)
    ensures Texts([b]) == b.text
  {}

  lemma NoTexts()
    ensures Texts([]) == ""
  {}

  lemma TextsOneMore(bs: seq<Buffer>, i: nat)
    requires i < |bs|
    ensures Texts(bs[..i + 1]) == Texts(bs[..i]) + bs[i].text
  {
    assert bs[..i + 1] == bs[..i] + [bs[i]];
    TextsAppend(bs[..i], [bs[i]]);
  }

  lemma {:induction false} CopiesAppend(a: seq<Buffer>, b: seq<Buffer>, id: nat)
    ensures Copies(a + b, id) == Copies(a, id) + Copies(b, id)
  {
    if a == [] {
      assert a + b == b;
    } else {
      assert (a + b)[1..] == a[1..] + b;
      CopiesAppend(a[1..], b, id);
    }
  }

  lemma CopiesOne(b: Buffer, id: nat)
    ensures Copies([b], id) == if b.id == id then 1 else 0
  {}

  lemma CopiesTwo(bs: seq<Buffer>, id: nat)
    requires |bs| == 2
    ensures Copies(bs, id) == (if bs[0].id == id then 1 else 0) + (if bs[1].id == id then 1 else 0)
  {
    CopiesOne(bs[1], id);
    assert bs[1..] == [bs[1]];
  }

  lemma KeptOneMore(msgs: seq<string>, m: string, size: nat)
    ensures Kept(msgs + [m], size) == Kept(msgs, size) + (if |m| < size then m else "")
  {
    assert (msgs + [m])[..|msgs + [m]| - 1] == msgs;
  }

  lemma InitInv(s: Logger)
    requires Init(s)
    ensures Inv(s)
  {}

  lemma AppendKeepsShape(s: Logger, msg: string)
    requires Shape(s) && AppendDefined(s, msg)
    ensures Shape(AppendStep(s, msg))
  {}

  lemma SwapKeepsShape(s: Logger)
    requires Shape(s) && OutsideSwap(s)
    ensures Shape(SwapStep(s))
  {}

  lemma RecycleKeepsShape(s: Logger)
    requires Shape(s) && Enabled(s, Recycle)
    ensures Shape(RecycleStep(s))
  {}

  lemma StepKeepsShape(s: Logger, step: Step)
    requires Shape(s) && Enabled(s, step)
    ensures Shape(Next(s, step))
  {
    hide AppendStep, AppendDefined, SwapStep, RecycleStep, RecycleAsserts;
    match step
    case Append(msg) => AppendKeepsShape(s, msg);
    case Lock => if s.buffers != [] { SwapKeepsShape(s); }
    case Wake => SwapKeepsShape(s);
    case Recycle => RecycleKeepsShape(s);
    case _ =>
  }

  lemma SwapKeepsOwners(s: Logger, id: nat)
    requires Shape(s) && OutsideSwap(s)
    ensures Owners(SwapStep(s), id) == Owners(s, id)
  {
    CopiesAppend(s.buffers, [s.current.value], id);
  }

  lemma RefillKeepsOwners(spare: Option<Buffer>, bs: seq<Buffer>, id: nat)
    requires CountNone(spare) <= |bs|
    ensures var (b, rest) := Refill(spare, bs); Held(b, id) + Copies(rest, id) == Held(spare, id) + Copies(bs, id)
  {
    if spare.None? {
      var init, last := bs[..|bs| - 1], bs[|bs| - 1];
      assert Copies(bs, id) == Copies(init, id) + (if last.id == id then 1 else 0) by {
        hide Refill;
        assert bs == init + [last];
        CopiesAppend(init, [last], id);
        CopiesOne(last, id);
      }
      hide Copies;
    }
  }

  lemma RefillingKeepsOwners(s: Logger, id: nat)
    requires s.writeBuffers != []
    ensures s.buf1.None? ==> Owners(LastToFirst(s), id) == Owners(ResetFirst(LastToFirst(s)), id) == Owners(s, id)
    ensures s.buf2.None? ==> Owners(LastToSecond(s), id) == Owners(ResetSecond(LastToSecond(s)), id) == Owners(s, id)
  {
    var n := |s.writeBuffers| - 1;
    var init, last := s.writeBuffers[..n], s.writeBuffers[n];
    assert Copies(s.writeBuffers, id) == Copies(init, id) + (if last.id == id then 1 else 0) by {
      assert s.writeBuffers == init + [last];
      CopiesAppend(init, [last], id);
      CopiesOne(last, id);
    }
    hide Copies;
  }

  lemma RefilledIsRecycled(s: Logger)
    requires Shape(s) && s.consumer == Writing(|s.writeBuffers|) && RecycleAsserts(s)
    ensures s.buf1.None? && 1 <= |s.writeBuffers| <= 2 && (s.buf2.None? <==> |s.writeBuffers| == 2)
    ensures RecycleStep(s) == Refilled(s).(writeBuffers := [], consumer := LoopHead)
  {}

  /** Recycling is the two refills, one after the other. */
  lemma RecycleInParts(s: Logger)
    requires Reachable(s) && s.consumer == Writing(|s.writeBuffers|)
    ensures s.buf1.None? && 1 <= |s.writeBuffers| <= 2 && (s.buf2.None? <==> |s.writeBuffers| == 2)
    ensures Takes(s, Recycle, Refilled(s).(writeBuffers := [], consumer := LoopHead))
  {
    hide Reachable, Shape, ClosedPool, Conserved, RecycleAsserts, RecycleStep, Refilled;
    ReachableInv(s);
    ConsumerAssertsHold(s, "");
    RefilledIsRecycled(s);
  }

  /** Refilling empties write_buffers, so `clear()` destroys no buffer. */
  lemma RecycleKeepsOwners(s: Logger, id: nat)
    requires Shape(s) && Enabled(s, Recycle)
    ensures Owners(RecycleStep(s), id) == Owners(s, id)
  {
    var (buf1, rest) := Refill(s.buf1, Shrunk(s.writeBuffers));
    RefillKeepsOwners(s.buf1, Shrunk(s.writeBuffers), id);
    RefillKeepsOwners(s.buf2, rest, id);
    assert Refill(s.buf2, rest).1 == [];
  }

  lemma HandOverKeepsOwners(s: Logger, id: nat)
    requires s.current.Some?
    ensures Owners(HandedOver(s), id) == Owners(s, id)
  {
    CopiesAppend(s.buffers, [s.current.value], id);
    CopiesOne(s.current.value, id);
  }

  lemma AppendKeepsOwners(s: Logger, msg: string, id: nat)
    requires Shape(s) && AppendDefined(s, msg)
    ensures Owners(AppendStep(s, msg), id) == Owners(s, id)
  {
    CopiesAppend(s.buffers, [s.current.value], id);
  }

  lemma StepKeepsOwners(s: Logger, step: Step, id: nat)
    requires Shape(s) && Enabled(s, step)
    ensures Owners(Next(s, step), id) == Owners(s, id)
  {
    hide AppendStep, SwapStep, RecycleStep, AppendDefined;
    match step
    case Append(msg) => AppendKeepsOwners(s, msg, id);
    case Lock => if s.buffers != [] { SwapKeepsOwners(s, id); }
    case Wake => SwapKeepsOwners(s, id);
    case Recycle => RecycleKeepsOwners(s, id);
    case _ =>
  }

  lemma AppendGrowsPending(s: Logger, msg: string)
    requires Shape(s) && AppendDefined(s, msg)
    ensures AppendStep(s, msg).current.Some?
    ensures Pending(AppendStep(s, msg)) == Pending(s) + (if |msg| < s.size then msg else "")
  {
    TextsAppend(s.buffers, [s.current.value]);
    TextsOne(s.current.value);
    hide Texts;
  }

  lemma AppendLeavesTheRest(s: Logger, msg: string)
    requires AppendDefined(s, msg)
    ensures var t := AppendStep(s, msg);
            && t.appended == s.appended + [msg] && t.output == s.output && t.size == s.size
            && Unwritten(t) == Unwritten(s)
  {
    hide Texts, AppendTo;
  }

  lemma AppendConserves(s: Logger, msg: string)
    requires Shape(s) && Conserved(s) && AppendDefined(s, msg)
    ensures AppendStep(s, msg).current.Some? && Conserved(AppendStep(s, msg))
  {
    assert s.current.Some?;
    hide Kept, Pending, Unwritten, AppendStep, AppendDefined, Shape;
    AppendLeavesTheRest(s, msg);
    AppendGrowsPending(s, msg);
    KeptOneMore(s.appended, msg, s.size);
    var before, kept := s.output + Unwritten(s), if |msg| < s.size then msg else "";
    assert before + (Pending(s) + kept) == (before + Pending(s)) + kept;
  }

  lemma SwapConserves(s: Logger)
    requires Shape(s) && Conserved(s) && OutsideSwap(s)
    ensures SwapStep(s).current.Some? && Conserved(SwapStep(s))
  {
    var t := SwapStep(s);
    TextsAppend(s.buffers, [s.current.value]);
    TextsOne(s.current.value);
    assert Pending(t) == "";
    hide Kept;
    assert Unwritten(t) == Pending(s) && Unwritten(s) == "";
  }

  lemma WriteConserves(s: Logger)
    requires Shape(s) && Conserved(s) && Enabled(s, WriteBuffer)
    ensures Conserved(Next(s, WriteBuffer))
  {
    var t := Next(s, WriteBuffer);
    var i := s.consumer.next;
    assert s.writeBuffers[i..][1..] == s.writeBuffers[i + 1..];
    assert Unwritten(s) == s.writeBuffers[i].text + Unwritten(t);
    hide Kept, Texts;
    assert s.output + (s.writeBuffers[i].text + Unwritten(t)) == t.output + Unwritten(t);
  }

  lemma CheckCountConserves(s: Logger, notice: string)
    requires Shape(s) && Conserved(s) && Enabled(s, CheckCount(notice))
    ensures Next(s, CheckCount(notice)).current.Some? && Conserved(Next(s, CheckCount(notice)))
  {
    hide Kept, Texts;
    assert s.writeBuffers[0..] == s.writeBuffers;
  }

  lemma RecycleConserves(s: Logger)
    requires Shape(s) && Conserved(s) && Enabled(s, Recycle)
    ensures RecycleStep(s).current.Some? && Conserved(RecycleStep(s))
  {
    assert s.writeBuffers[|s.writeBuffers|..] == [];
    assert Unwritten(s) == "" == Unwritten(RecycleStep(s));
    hide Kept, Texts;
  }

  lemma StepConserves(s: Logger, step: Step)
    requires Shape(s) && Conserved(s) && Enabled(s, step)
    ensures Next(s, step).current.Some? && Conserved(Next(s, step))
  {
    hide AppendStep, AppendDefined, SwapStep, RecycleStep, RecycleAsserts, CheckCountStep, Kept, Texts;
    match step
    case Append(msg) => AppendConserves(s, msg);
    case Lock => if s.buffers != [] { SwapConserves(s); }
    case Wake => SwapConserves(s);
    case CheckCount(notice) => CheckCountConserves(s, notice);
    case WriteBuffer => WriteConserves(s);
    case Recycle => RecycleConserves(s);
    case _ =>
  }

  lemma StepKeepsInv(s: Logger, step: Step)
    requires Inv(s) && Enabled(s, step)
    ensures Inv(Next(s, step)) && Next(s, step).size == s.size
  {
    assert Next(s, step).size == s.size;
    hide Enabled, Next, Shape, Owners, Texts, Kept, Unwritten, Pending;
    StepKeepsShape(s, step);
    forall id: nat ensures Owners(Next(s, step), id) == Owners(s, id) {
      StepKeepsOwners(s, step, id);
    }
    StepConserves(s, step);
  }

  lemma {:induction false} RunKeepsInv(s: Logger, steps: seq<Step>, t: Logger)
    requires Inv(s) && Reaches(s, steps, t)
    ensures Inv(t) && t.size == s.size
    decreases |steps|
  {
    hide Enabled, Next, Inv;
    if steps != [] {
      StepKeepsInv(s, steps[0]);
      RunKeepsInv(Next(s, steps[0]), steps[1..], t);
    }
  }

  // ------------------------------------------------------------------ safety over all runs

  ghost predicate Reachable(s: Logger) {
    exists s0, steps :: Init(s0) && Reaches(s0, steps, s)
  }

  lemma InitReachable(s: Logger)
    requires Init(s)
    ensures Reachable(s)
  {
    NoStep(s);
  }

  lemma NextReachable(s: Logger, step: Step, t: Logger)
    requires Reachable(s) && Takes(s, step, t)
    ensures Reachable(t)
  {
    hide Init, Enabled, Next;
    var s0, steps :| Init(s0) && Reaches(s0, steps, s);
    OneMoreStep(s0, steps, s, step);
  }

  lemma ReachableInv(s: Logger)
    requires Reachable(s)
    ensures Inv(s)
  {
    var s0, steps :| Init(s0) && Reaches(s0, steps, s);
    InitInv(s0);
    RunKeepsInv(s0, steps, s);
  }

  /** In every interleaving the spare is gone exactly when a full buffer waits, there is always a
      buffer to append to, and every spare is empty. */
  lemma SpareGoneIffFullBufferWaits(s: Logger)
    requires Reachable(s)
    ensures s.next.None? <==> s.buffers != []
    ensures s.current.Some?
    ensures IsSpare(s.next) && IsSpare(s.buf1) && IsSpare(s.buf2)
  {
    ReachableInv(s);
  }

  /** The step the consumer takes next; `notice` is what it would say if it dropped buffers. */
  function ConsumerStep(s: Logger, notice: string): Step
    requires !s.consumer.Exited?
  {
    match s.consumer
    case LoopHead => CheckStop
    case BeforeLock => Lock
    case Waiting => Wake
    case Swapped => CheckCount(notice)
    case Writing(i) => if i < |s.writeBuffers| then WriteBuffer else Recycle
  }

  lemma ConsumerKeepsHistory(s: Logger, notice: string, t: Logger)
    requires !s.consumer.Exited? && Takes(s, ConsumerStep(s, notice), t)
    ensures t.appended == s.appended && t.size == s.size
  {}

  /** No assert of the consumer can fail: its next step is always defined. */
  lemma ConsumerAssertsHold(s: Logger, notice: string)
    requires Reachable(s) && !s.consumer.Exited?
    ensures Enabled(s, ConsumerStep(s, notice))
    ensures s.consumer.LoopHead? ==> TopAsserts(s)
    ensures s.consumer.Swapped? ==> s.writeBuffers != []
    ensures s.consumer == Writing(|s.writeBuffers|) ==> RecycleAsserts(s)
  {
    ReachableInv(s);
  }

  /** The consumer runs until it is told to stop. */
  lemma ExitedMeansStopped(s: Logger)
    requires Reachable(s) && s.consumer.Exited?
    ensures s.stop
  {
    ReachableInv(s);
  }

  /** The messages passed to Append in a run. */
  function Messages(steps: seq<Step>): seq<string> {
    if steps == [] then [] else (if steps[0].Append? then [steps[0].msg] else []) + Messages(steps[1..])
  }

  /** The history holds the messages of the calls, in their order, and stop_ is set by Stop only. */
  lemma {:induction false} HistoryIsTheCalls(s: Logger, steps: seq<Step>, t: Logger)
    requires Reaches(s, steps, t)
    ensures t.appended == s.appended + Messages(steps)
    ensures t.stop <==> s.stop || Stop in steps
    decreases |steps|
  {
    if steps != [] {
      StepIsRemembered(s, steps[0]);
      hide Enabled, Next;
      HistoryIsTheCalls(Next(s, steps[0]), steps[1..], t);
      hide Reaches;
      var first := if steps[0].Append? then [steps[0].msg] else [];
      assert Messages(steps) == first + Messages(steps[1..]);
      assert s.appended + (first + Messages(steps[1..])) == (s.appended + first) + Messages(steps[1..]);
      assert steps == [steps[0]] + steps[1..];
    }
  }

  lemma StepIsRemembered(s: Logger, step: Step)
    requires Enabled(s, step)
    ensures Next(s, step).appended == s.appended + (if step.Append? then [step.msg] else [])
    ensures Next(s, step).stop <==> s.stop || step == Stop
  {}

  /** What has been written is always a prefix of the accepted messages in Append order; the rest
      is what the consumer holds and what the producers have handed over or are filling. */
  lemma OutputIsPrefixOfLog(s: Logger)
    requires Reachable(s)
    ensures s.current.Some?
    ensures s.output + Unwritten(s) + Pending(s) == Kept(s.appended, s.size)
    ensures s.output <= Kept(s.appended, s.size)
  {
    ReachableInv(s);
    hide Kept, Unwritten, Pending;
    var log := Kept(s.appended, s.size);
    assert log == s.output + (Unwritten(s) + Pending(s));
    assert log[..|s.output|] == s.output;
  }

  /** Once the consumer has exited, what is lost is exactly what is in `buffers_` and
      `current_buf_`. */
  lemma LossAtExit(s: Logger)
    requires Reachable(s) && s.consumer.Exited?
    ensures s.current.Some?
    ensures Kept(s.appended, s.size) == s.output + (Texts(s.buffers) + s.current.value.text)
  {
    ReachableInv(s);
    assert s.output + "" == s.output;
  }

  /** Exactly four buffers exist, each with one owner; a swap never takes more than two, so no
      buffer is ever dropped and no notice is ever written. */
  lemma FourBuffersAndNoDrop(s: Logger)
    requires Reachable(s)
    ensures forall id: nat :: Owners(s, id) == if id < 4 then 1 else 0
    ensures |s.writeBuffers| <= 2
    ensures forall notice :: CheckCountStep(s, notice) == s.(consumer := Writing(0))
  {
    ReachableInv(s);
  }

  /** When a call of Append has a meaning: exactly when the message fits behind what is in the
      current buffer, or no full buffer is waiting for the consumer. */
  lemma AppendDefinedIff(s: Logger, msg: string)
    requires Reachable(s)
    ensures s.current.Some?
    ensures AppendDefined(s, msg) <==> (|s.current.value.text| + |msg| < s.size || s.buffers == [])
  {
    ReachableInv(s);
  }

  /** It does not always have one: three messages that each fit in a buffer, but no two of them
      together, are enough when the consumer does not swap in between. */
  lemma AppendCanBeUndefined(s0: Logger, a: string, b: string, c: string)
    requires Init(s0) && |a| < s0.size && |b| < s0.size && |c| < s0.size
    requires |a| + |b| >= s0.size && |b| + |c| >= s0.size
    ensures var t := Next(Next(s0, Append(a)), Append(b));
            Reaches(s0, [Append(a), Append(b)], t) && !AppendDefined(t, c)
  {
    var s1 := Next(s0, Append(a));
    var t := Next(s1, Append(b));
    assert Reaches(t, [], t);
    assert [Append(b)][1..] == [];
    assert Reaches(s1, [Append(b)], t);
    assert [Append(a), Append(b)][1..] == [Append(b)];
  }

  // ------------------------------------------------------------------ progress

  predicate IsConsumerStep(step: Step) {
    !step.Append? && !step.Stop?
  }

  function ConsumerSteps(steps: seq<Step>): nat {
    if steps == [] then 0 else (if IsConsumerStep(steps[0]) then 1 else 0) + ConsumerSteps(steps[1..])
  }

  /** How many steps the consumer can still take once stop_ is set. */
  function StepsToExit(s: Logger): nat {
    match s.consumer
    case Exited => 0
    case LoopHead => 1
    case Writing(i) => if i <= |s.writeBuffers| then 2 + |s.writeBuffers| - i else 2
    case Swapped => 3 + |s.writeBuffers|
    case Waiting => 6
    case BeforeLock => 7
  }

  lemma StepAfterStop(s: Logger, step: Step)
    requires Shape(s) && s.stop && Enabled(s, step)
    ensures Next(s, step).stop
    ensures StepsToExit(Next(s, step)) + (if IsConsumerStep(step) then 1 else 0) <= StepsToExit(s)
  {}

  /** Stop() joins the consumer: in any run after stop_ is set, whatever the producers do, the
      consumer takes at most seven more steps. Until it has exited it has a next step
      (ConsumerAssertsHold), so it does exit. */
  lemma {:induction false} StopIsBounded(s: Logger, steps: seq<Step>, t: Logger)
    requires Inv(s) && s.stop && Reaches(s, steps, t)
    ensures t.stop && ConsumerSteps(steps) + StepsToExit(t) <= StepsToExit(s) <= 7
    decreases |steps|
  {
    if steps != [] {
      StepAfterStop(s, steps[0]);
      StepKeepsInv(s, steps[0]);
      hide Enabled, Next, Inv, StepsToExit;
      StopIsBounded(Next(s, steps[0]), steps[1..], t);
    }
  }

  // ------------------------------------------------------------------ delivery while running

  function StepsToWritten(s: Logger): nat {
    match s.consumer
    case Swapped => 1 + |s.writeBuffers|
    case Writing(i) => if i <= |s.writeBuffers| then |s.writeBuffers| - i else 0
    case _ => 0
  }

  /** How many steps of the consumer bring the text p into the output at the latest, unless it is told
      to stop: those that write what it holds, or those to the next swap and the writing after it. */
  function StepsToDeliver(p: string, s: Logger): nat {
    if p <= s.output then 0
    else if p <= s.output + Unwritten(s) then StepsToWritten(s)
    else
      match s.consumer
      case Waiting => 4
      case BeforeLock => 5
      case LoopHead => 6
      case Writing(i) => if i <= |s.writeBuffers| then 7 + |s.writeBuffers| - i else 7
      case Swapped => 8 + |s.writeBuffers|
      case Exited => 0
  }

  lemma PrefixExtends(p: string, a: string, b: string)
    requires p <= a
    ensures p <= a + b
  {}

  /** A step that changes neither the output nor what is to be written comes no further from p. */
  lemma SameProspect(p: string, s: Logger, t: Logger)
    requires s.output == t.output && Unwritten(s) == Unwritten(t)
    ensures p <= s.output <==> p <= t.output
    ensures p <= s.output + Unwritten(s) <==> p <= t.output + Unwritten(t)
  {}

  lemma SwapDelivers(p: string, s: Logger)
    requires Inv(s) && OutsideSwap(s) && p <= Kept(s.appended, s.size)
    ensures p <= SwapStep(s).output + Unwritten(SwapStep(s))
    ensures StepsToDeliver(p, SwapStep(s)) <= 3
  {
    SwapConserves(s);
    SwapKeepsShape(s);
    var t := SwapStep(s);
    assert Pending(t) == "" && t.appended == s.appended && t.size == s.size;
    assert t.output + Unwritten(t) + "" == t.output + Unwritten(t);
  }

  lemma WriteDelivers(p: string, s: Logger)
    requires Shape(s) && Enabled(s, WriteBuffer)
    ensures var t := Next(s, WriteBuffer);
            && t.output + Unwritten(t) == s.output + Unwritten(s)
            && StepsToDeliver(p, t) <= StepsToDeliver(p, s)
            && (StepsToDeliver(p, s) > 0 ==> StepsToDeliver(p, t) < StepsToDeliver(p, s))
  {
    var t := Next(s, WriteBuffer);
    var i := s.consumer.next;
    assert s.writeBuffers[i..][1..] == s.writeBuffers[i + 1..];
    assert Unwritten(s) == s.writeBuffers[i].text + Unwritten(t);
    hide Texts, Unwritten;
    assert s.output + (s.writeBuffers[i].text + Unwritten(t)) == t.output + Unwritten(t);
    if p <= s.output { PrefixExtends(p, s.output, s.writeBuffers[i].text); }
  }

  lemma RecycleDelivers(p: string, s: Logger)
    requires Shape(s) && Enabled(s, Recycle)
    ensures StepsToDeliver(p, RecycleStep(s)) <= StepsToDeliver(p, s)
    ensures StepsToDeliver(p, s) > 0 ==> StepsToDeliver(p, RecycleStep(s)) < StepsToDeliver(p, s)
  {
    var t := RecycleStep(s);
    assert s.writeBuffers[|s.writeBuffers|..] == [];
    assert Unwritten(s) == "" && Unwritten(t) == "" && t.output == s.output && t.consumer == LoopHead;
    assert s.output + "" == s.output;
  }

  lemma CheckCountDelivers(p: string, s: Logger, notice: string)
    requires Shape(s) && Enabled(s, CheckCount(notice))
    ensures var t := Next(s, CheckCount(notice));
            && StepsToDeliver(p, t) <= StepsToDeliver(p, s)
            && (StepsToDeliver(p, s) > 0 ==> StepsToDeliver(p, t) < StepsToDeliver(p, s))
  {
    var t := Next(s, CheckCount(notice));
    assert t == s.(consumer := Writing(0));
    assert s.writeBuffers[0..] == s.writeBuffers;
    SameProspect(p, s, t);
  }

  lemma StepDelivers(p: string, s: Logger, step: Step)
    requires Inv(s) && !s.stop && Enabled(s, step) && step != Stop && p <= Kept(s.appended, s.size)
    ensures var t := Next(s, step);
            && p <= Kept(t.appended, t.size)
            && StepsToDeliver(p, t) <= StepsToDeliver(p, s)
            && (IsConsumerStep(step) && StepsToDeliver(p, s) > 0 ==> StepsToDeliver(p, t) < StepsToDeliver(p, s))
  {
    hide AppendStep, AppendDefined, SwapStep, RecycleStep, RecycleAsserts, CheckCountStep, Kept, Texts;
    match step
    case Append(msg) =>
      AppendLeavesTheRest(s, msg);
      SameProspect(p, s, AppendStep(s, msg));
      AppendKeepsConsumer(s, msg);
      KeptOneMore(s.appended, msg, s.size);
      PrefixExtends(p, Kept(s.appended, s.size), if |msg| < s.size then msg else "");
    case CheckStop => assert s.output + "" == s.output;
    case Lock =>
      assert s.output + "" == s.output;
      if s.buffers != [] { SwapDelivers(p, s); SwapKeepsHistory(p, s); }
    case Wake =>
      assert s.output + "" == s.output;
      SwapDelivers(p, s);
      SwapKeepsHistory(p, s);
    case CheckCount(notice) => CheckCountDelivers(p, s, notice); CheckCountKeepsHistory(s, notice);
    case WriteBuffer => WriteDelivers(p, s);
    case Recycle => RecycleDelivers(p, s); RecycleKeepsHistory(s);
  }

  lemma AppendKeepsConsumer(s: Logger, msg: string)
    requires AppendDefined(s, msg)
    ensures AppendStep(s, msg).consumer == s.consumer && AppendStep(s, msg).writeBuffers == s.writeBuffers
  {}

  lemma SwapKeepsHistory(p: string, s: Logger)
    requires s.current.Some?
    ensures var t := SwapStep(s);
            && t.appended == s.appended && t.size == s.size && t.output == s.output
            && (p <= s.output ==> StepsToDeliver(p, t) == 0)
  {}

  lemma CheckCountKeepsHistory(s: Logger, notice: string)
    ensures var t := CheckCountStep(s, notice); t.appended == s.appended && t.size == s.size
  {}

  lemma RecycleKeepsHistory(s: Logger)
    requires RecycleAsserts(s)
    ensures RecycleStep(s).appended == s.appended && RecycleStep(s).size == s.size
  {}

  lemma {:induction false} RunDelivers(p: string, s: Logger, steps: seq<Step>, t: Logger)
    requires Inv(s) && !s.stop && p <= Kept(s.appended, s.size) && Reaches(s, steps, t) && Stop !in steps
    ensures Inv(t) && !t.stop
    ensures StepsToDeliver(p, t) == 0 || ConsumerSteps(steps) + StepsToDeliver(p, t) <= StepsToDeliver(p, s)
    ensures StepsToDeliver(p, t) <= StepsToDeliver(p, s)
    decreases |steps|
  {
    if steps != [] {
      assert steps[0] in steps;
      StepDelivers(p, s, steps[0]);
      StepIsRemembered(s, steps[0]);
      StepKeepsInv(s, steps[0]);
      hide Enabled, Next, Inv, StepsToDeliver, Kept;
      RunDelivers(p, Next(s, steps[0]), steps[1..], t);
    }
  }

  /** While nobody stops it, the consumer delivers: ten of its steps after any state, however the
      producers come between them, everything appended before is in the output. */
  lemma DeliveryWhileRunning(s: Logger, steps: seq<Step>, t: Logger)
    requires Reachable(s) && !s.stop && Reaches(s, steps, t) && Stop !in steps
    requires ConsumerSteps(steps) >= 10
    ensures Kept(s.appended, s.size) <= t.output
  {
    ReachableInv(s);
    var p := Kept(s.appended, s.size);
    RunDelivers(p, s, steps, t);
    assert StepsToDeliver(p, s) <= 10;
    NothingToDeliver(p, t);
  }

  lemma NothingToDeliver(p: string, t: Logger)
    requires Inv(t) && !t.stop && StepsToDeliver(p, t) == 0
    ensures p <= t.output
  {
    if t.consumer == Writing(|t.writeBuffers|) {
      assert t.writeBuffers[|t.writeBuffers|..] == [];
    }
    assert t.output + "" == t.output;
  }

  /** The text p is in the output, or will be once the consumer has written what it holds. */
  predicate Delivering(p: string, s: Logger) {
    p <= s.output || (!OutsideSwap(s) && s.output + Unwritten(s) == p)
  }

  lemma StepKeepsDelivering(p: string, s: Logger, step: Step)
    requires Inv(s) && Delivering(p, s) && Enabled(s, step)
    ensures Delivering(p, Next(s, step))
  {
    var t := Next(s, step);
    assert s.consumer == Writing(|s.writeBuffers|) ==> Unwritten(s) == "" && s.output + "" == s.output;
    if p <= s.output {
      assert s.output <= t.output;
    } else {
      match step
      case WriteBuffer =>
        var i := s.consumer.next;
        assert s.writeBuffers[i..][1..] == s.writeBuffers[i + 1..];
        assert s.output + (s.writeBuffers[i].text + Unwritten(t)) == t.output + Unwritten(t);
      case CheckCount(_) =>
        assert s.writeBuffers[0..] == s.writeBuffers;
      case _ =>
    }
  }

  lemma {:induction false} RunKeepsDelivering(p: string, s: Logger, steps: seq<Step>, t: Logger)
    requires Inv(s) && Delivering(p, s) && Reaches(s, steps, t)
    ensures Delivering(p, t)
    decreases |steps|
  {
    if steps != [] {
      StepKeepsDelivering(p, s, steps[0]);
      StepKeepsInv(s, steps[0]);
      hide Enabled, Next, Inv, Delivering;
      RunKeepsDelivering(p, Next(s, steps[0]), steps[1..], t);
    }
  }

  /** Whatever was appended before the consumer swaps is in the output by the time the consumer is
      back at the head of its loop, in every interleaving with producers. */
  lemma SwapDeliversEverything(s: Logger, steps: seq<Step>, t: Logger)
    requires Reachable(s) && Reaches(s, steps, t)
    requires steps != [] && (steps[0] == Wake || (steps[0] == Lock && s.buffers != []))
    requires OutsideSwap(t)
    ensures Kept(s.appended, s.size) <= t.output
  {
    ReachableInv(s);
    var u := Next(s, steps[0]);
    StepKeepsInv(s, steps[0]);
    var p := Kept(s.appended, s.size);
    SwapConserves(s);
    assert Pending(u) == "" && u.output + Unwritten(u) + "" == u.output + Unwritten(u);
    hide Kept, Inv, Unwritten;
    RunKeepsDelivering(p, u, steps[1..], t);
  }
}
