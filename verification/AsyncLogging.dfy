/** The two classes of base/async_logging.h. */
module AsyncLogging {
  import opened Wrappers
  import P = AsyncLoggingProtocol

  /** A buffer of fixed size; `cur` is `cur_ - data_`. */
  class DataBuffer {
    ghost const id: nat
    const data: array<char>
    var cur: nat

    ghost predicate Valid()
      reads this
    {
      cur <= data.Length
    }

    ghost function View(): P.Buffer
      requires Valid()
      reads this, data
    {
      P.Buffer(id, data[..cur])
    }

    constructor (ghost id: nat, size: nat)
      ensures Valid() && View() == P.Buffer(id, "")
      ensures data.Length == size && fresh(data)
    {
      this.id := id;
      data := new char[size](_ => '\0');
      cur := 0;
    }

    function Avail(): (n: nat)
      requires Valid()
      reads this, data
      ensures n == P.Avail(View(), data.Length)
    {
      data.Length - cur
    }

    method Append(buf: string)
      requires Valid()
      modifies this`cur, data
      ensures Valid() && View() == P.AppendTo(old(View()), buf, data.Length)
      ensures data[..cur] == old(data[..cur]) + (if data.Length - old(cur) > |buf| then buf else "")
    {
      if Avail() > |buf| {
        forall i | 0 <= i < |buf| { data[cur + i] := buf[i]; }
        cur := cur + |buf|;
      }
    }

    method Reset()
      requires Valid()
      modifies this`cur
      ensures Valid() && View() == P.Reset(old(View())) && cur == 0
    {
      cur := 0;
    }
  }

  /** Different buffers, each in memory of its own, and what they are told apart by. */
  ghost predicate AreBuffers(pool: set<DataBuffer>, memory: set<object>, size: nat)
    reads memory
  {
    && (forall b :: b in pool ==> b in memory && b.data in memory && b.data.Length == size && b.Valid())
    && (forall b, c :: b in pool && c in pool && b != c ==> b.id != c.id && b.data != c.data)
  }

  /** Another buffer besides those of the pool. */
  method NewBuffer(ghost id: nat, size: nat, ghost pool: set<DataBuffer>, ghost memory: set<object>)
    returns (b: DataBuffer, ghost more: set<object>)
    requires AreBuffers(pool, memory, size) && forall c :: c in pool ==> c.id != id
    ensures b.Valid() && b.View() == P.Buffer(id, "")
    ensures fresh(b) && more == memory + {b, b.data} && fresh(more - memory)
    ensures AreBuffers(pool + {b}, more, size)
  {
    b := new DataBuffer(id, size);
    more := memory + {b, b.data};
  }

  /** The four calls of `new Buffer`. */
  method NewBuffers(size: nat)
    returns (a: DataBuffer, b: DataBuffer, c: DataBuffer, d: DataBuffer,
             ghost pool: set<DataBuffer>, ghost memory: set<object>)
    ensures a.Valid() && b.Valid() && c.Valid() && d.Valid()
    ensures a.View() == P.Buffer(0, "") && b.View() == P.Buffer(1, "")
    ensures c.View() == P.Buffer(2, "") && d.View() == P.Buffer(3, "")
    ensures a in pool && b in pool && c in pool && d in pool
    ensures AreBuffers(pool, memory, size) && fresh(memory)
  {
    assert AreBuffers({}, {}, size);
    hide AreBuffers;
    a, memory := NewBuffer(0, size, {}, {});
    pool := {} + {a};
    b, memory := NewBuffer(1, size, pool, memory);
    pool := pool + {b};
    assert fresh(memory);
    c, memory := NewBuffer(2, size, pool, memory);
    pool := pool + {c};
    assert fresh(memory);
    d, memory := NewBuffer(3, size, pool, memory);
    pool := pool + {d};
  }

  /** A `unique_ptr<Buffer>` is a reference, null when it has been moved from. The locals of ConsumeLog
      live across its steps and are fields here. Each method is one step of AsyncLoggingProtocol,
      except WriteBuffers, which is the whole loop over `write_buffers`. */
  class AsyncLogging {
    const size: nat

    var currentBuf: DataBuffer?
    var nextBuf: DataBuffer?
    var buffers: seq<DataBuffer>
    var stop: bool

    var consumer: P.Consumer
    var buf1: DataBuffer?
    var buf2: DataBuffer?
    var writeBuffers: seq<DataBuffer>
    var output: string

    ghost var appended: seq<string>

    /** The buffers made by the two threads, and the memory they take; nobody else has them. */
    ghost const pool: set<DataBuffer>
    ghost const memory: set<object>

    ghost predicate PoolValid()
      reads memory
    {
      AreBuffers(pool, memory, size)
    }

    ghost predicate Held()
      reads this, memory
    {
      && this !in memory && PoolValid()
      && (currentBuf != null ==> currentBuf in pool) && (nextBuf != null ==> nextBuf in pool)
      && (buf1 != null ==> buf1 in pool) && (buf2 != null ==> buf2 in pool)
      && AllInPool(buffers) && AllInPool(writeBuffers)
    }

    ghost predicate AllInPool(bs: seq<DataBuffer>) {
      forall b :: b in bs ==> b in pool
    }

    ghost function ViewOf(b: DataBuffer?): Option<P.Buffer>
      requires PoolValid() && (b != null ==> b in pool)
      reads memory
    {
      if b == null then None else Some(b.View())
    }

    ghost function Views(bs: seq<DataBuffer>): (r: seq<P.Buffer>)
      requires PoolValid() && AllInPool(bs)
      reads memory
      ensures |r| == |bs| && forall i :: 0 <= i < |bs| ==> r[i] == bs[i].View()
    {
      if bs == [] then [] else [bs[0].View()] + Views(bs[1..])
    }

    ghost function Abs(): P.Logger
      requires Held()
      reads this, memory
    {
      P.Logger(size, ViewOf(currentBuf), ViewOf(nextBuf), Views(buffers), stop,
               consumer, ViewOf(buf1), ViewOf(buf2), Views(writeBuffers), output, appended)
    }

    lemma IsValid(b: DataBuffer)
      requires PoolValid() && b in pool
      ensures b.Valid() && b.data.Length == size && b in memory && b.data in memory
    {}

    lemma SameViews(bs: seq<DataBuffer>, views: seq<P.Buffer>)
      requires PoolValid() && AllInPool(bs) && |views| == |bs|
      requires forall i :: 0 <= i < |bs| ==> bs[i].View() == views[i]
      ensures Views(bs) == views
    {}

    lemma ViewsPrefix(bs: seq<DataBuffer>, n: nat)
      requires PoolValid() && AllInPool(bs) && n <= |bs|
      ensures AllInPool(bs[..n]) && Views(bs[..n]) == Views(bs)[..n]
    {
      SameViews(bs[..n], Views(bs)[..n]);
    }

    lemma ViewsOneMore(bs: seq<DataBuffer>, b: DataBuffer)
      requires PoolValid() && AllInPool(bs) && b in pool
      ensures AllInPool(bs + [b]) && b.Valid() && Views(bs + [b]) == Views(bs) + [b.View()]
    {
      SameViews(bs + [b], Views(bs) + [b.View()]);
    }

    /** The state is one that the protocol can reach; in particular no two owners share a buffer. */
    ghost predicate Valid()
      reads this, memory
    {
      Held() && P.Reachable(Abs())
    }

    constructor (size: nat)
      ensures Valid() && Abs() == P.Start(size) && fresh(memory) && this.size == size
    {
      ghost var newPool, newMemory;
      var a, b, c, d;
      a, b, c, d, newPool, newMemory := NewBuffers(size);
      this.size := size;
      currentBuf, nextBuf, buf1, buf2 := a, b, c, d;
      stop, consumer := false, P.LoopHead;
      buffers, writeBuffers, output, appended := [], [], "", [];
      pool, memory := newPool, newMemory;
      new;
      assert Views([]) == [];
      hide P.Reaches, P.Reachable, AreBuffers, Views;
      P.InitReachable(Abs());
    }

    /** No second owner has this buffer. */
    ghost predicate Alone(b: DataBuffer)
      requires Held()
      reads this, memory
    {
      P.Owners(Abs(), b.id) <= 1
    }

    ghost predicate AllAlone()
      requires Held()
      reads this, memory
    {
      forall id: nat :: P.Owners(Abs(), id) <= 1
    }

    lemma EachAlone()
      requires Valid()
      ensures AllAlone()
    {
      hide P.Owners, P.Reachable, AreBuffers, Views, AllInPool;
      P.FourBuffersAndNoDrop(Abs());
    }

    lemma {:induction false} AbsentIfNoCopies(b: DataBuffer, bs: seq<DataBuffer>)
      requires PoolValid() && AllInPool(bs) && P.Copies(Views(bs), b.id) == 0
      ensures b !in bs
    {
      if bs != [] {
        assert Views(bs)[1..] == Views(bs[1..]);
        AbsentIfNoCopies(b, bs[1..]);
      }
    }

    static ghost function Is(x: DataBuffer?, b: DataBuffer): nat {
      if x == b then 1 else 0
    }

    static ghost function In(bs: seq<DataBuffer>, b: DataBuffer): nat {
      if b in bs then 1 else 0
    }

    /** Whoever has a buffer is the only one to have it. */
    lemma OneOwner(b: DataBuffer)
      requires Held() && b in pool && Alone(b)
      ensures Is(currentBuf, b) + Is(nextBuf, b) + In(buffers, b)
            + Is(buf1, b) + Is(buf2, b) + In(writeBuffers, b) <= 1
    {
      if P.Copies(Views(buffers), b.id) == 0 { AbsentIfNoCopies(b, buffers); }
      if P.Copies(Views(writeBuffers), b.id) == 0 { AbsentIfNoCopies(b, writeBuffers); }
      hide AreBuffers, Views, P.Copies;
    }

    /** In every state the protocol can reach, no two pointers lead to the same buffer. */
    lemma NobodyShares()
      requires Valid()
      ensures forall b :: b in pool ==>
                Is(currentBuf, b) + Is(nextBuf, b) + In(buffers, b)
                + Is(buf1, b) + Is(buf2, b) + In(writeBuffers, b) <= 1
      ensures |buffers| <= 1 && |writeBuffers| <= 2
      ensures |writeBuffers| == 2 ==> writeBuffers[0] != writeBuffers[1]
    {
      EachAlone();
      P.ReachableInv(Abs());
      if |writeBuffers| == 2 {
        P.CopiesTwo(Views(writeBuffers), writeBuffers[0].id);
        assert P.Owners(Abs(), writeBuffers[0].id) <= 1;
      }
      hide P.Reachable, P.Inv, P.Owners, AreBuffers, Views;
      forall b | b in pool
        ensures Is(currentBuf, b) + Is(nextBuf, b) + In(buffers, b)
              + Is(buf1, b) + Is(buf2, b) + In(writeBuffers, b) <= 1
      {
        OneOwner(b);
      }
    }

    method FillCurrent(msg: string)
      requires Held() && currentBuf != null && Alone(currentBuf)
      modifies currentBuf, currentBuf.data
      ensures Held() && Abs() == old(Abs()).(current := Some(P.AppendTo(old(Abs()).current.value, msg, size)))
    {
      OneOwner(currentBuf);
      hide P.Owners, P.Copies, P.AppendTo;
      ghost var vs, ws := Views(buffers), Views(writeBuffers);
      currentBuf.Append(msg);
      assert PoolValid();
      SameViews(buffers, vs);
      SameViews(writeBuffers, ws);
    }

    /** The full buffer is handed over and the spare takes its place. */
    method HandOver()
      requires Held() && currentBuf != null && nextBuf != null
      modifies this`buffers, this`currentBuf, this`nextBuf
      ensures currentBuf == old(nextBuf) && nextBuf == null && buffers == old(buffers) + [old(currentBuf)]
      ensures Held() && Abs() == P.HandedOver(old(Abs()))
    {
      hide AreBuffers, Views, AllInPool;
      ViewsOneMore(buffers, currentBuf);
      buffers := buffers + [currentBuf];
      currentBuf, nextBuf := nextBuf, null;
    }

    /** All of Append but the history. */
    method Place(msg: string)
      requires Held() && AllAlone() && P.AppendDefined(Abs(), msg)
      modifies this`buffers, this`currentBuf, this`nextBuf, memory
      ensures Held() && Abs() == P.Placed(old(Abs()), msg)
      ensures if |old(Abs()).current.value.text| + |msg| < size
              then currentBuf == old(currentBuf) && nextBuf == old(nextBuf) && buffers == old(buffers)
              else currentBuf == old(nextBuf) && nextBuf == null && buffers == old(buffers) + [old(currentBuf)]
    {
      hide P.Owners, P.AppendTo, AreBuffers, Views, AllInPool;
      IsValid(currentBuf);
      if currentBuf.Avail() > |msg| {
        FillCurrent(msg);
      } else {
        P.HandOverKeepsOwners(Abs(), nextBuf.id);
        HandOver();
        IsValid(currentBuf);
        FillCurrent(msg);
      }
    }

    ghost method Note(msg: string)
      requires Held()
      modifies this`appended
      ensures Held() && Abs() == (var s := old(Abs()); s.(appended := s.appended + [msg]))
    {
      hide AreBuffers, Views, AllInPool;
      appended := appended + [msg];
    }

    method Append(msg: string)
      requires Valid() && P.AppendDefined(Abs(), msg)
      modifies this`buffers, this`currentBuf, this`nextBuf, this`appended, memory
      ensures Valid() && P.Takes(old(Abs()), P.Append(msg), Abs())
      ensures appended == old(appended) + [msg]
      ensures if |old(Abs()).current.value.text| + |msg| < size
              then currentBuf == old(currentBuf) && nextBuf == old(nextBuf) && buffers == old(buffers)
              else currentBuf == old(nextBuf) && nextBuf == null && buffers == old(buffers) + [old(currentBuf)]
    {
      hide P.Owners, P.Placed, P.AppendDefined, P.Reaches, P.Reachable, AreBuffers, Views, AllInPool, AllAlone;
      ghost var s := Abs();
      EachAlone();
      Place(msg);
      Note(msg);
      P.NextReachable(s, P.Append(msg), Abs());
    }

    method Stop()
      requires Valid()
      modifies this`stop
      ensures Valid() && P.Takes(old(Abs()), P.Stop, Abs()) && stop
    {
      hide P.Reaches, P.Reachable, AreBuffers, Views, AllInPool;
      ghost var s := Abs();
      stop := true;
      P.NextReachable(s, P.Stop, Abs());
    }

    method CheckStop()
      requires Valid() && consumer.LoopHead?
      modifies this`consumer
      ensures Valid() && P.Takes(old(Abs()), P.CheckStop, Abs())
      ensures consumer == if stop then P.Exited else P.BeforeLock
    {
      hide P.Reaches, P.Reachable, AreBuffers, Views, AllInPool;
      ghost var s := Abs();
      P.ConsumerAssertsHold(s, "");
      if stop {
        consumer := P.Exited;
      } else {
        IsValid(buf1);
        IsValid(buf2);
        assert buf1 != null && buf1.cur == 0;
        assert buf2 != null && buf2.cur == 0;
        assert writeBuffers == [];
        consumer := P.BeforeLock;
      }
      P.NextReachable(s, P.CheckStop, Abs());
    }

    method Lock()
      requires Valid() && consumer.BeforeLock?
      modifies this`consumer, this`buffers, this`currentBuf, this`nextBuf, this`buf1, this`buf2, this`writeBuffers
      ensures Valid() && P.Takes(old(Abs()), P.Lock, Abs())
      ensures consumer == if old(buffers) == [] then P.Waiting else P.Swapped
    {
      hide P.Reaches, P.Reachable, AreBuffers, Views, AllInPool, P.SwapStep;
      ghost var s := Abs();
      P.ConsumerAssertsHold(s, "");
      P.SpareGoneIffFullBufferWaits(s);
      if buffers == [] {
        consumer := P.Waiting;
      } else {
        Swap();
      }
      P.NextReachable(s, P.Lock, Abs());
    }

    /** The wait ends, with or without a notification. */
    method Wake()
      requires Valid() && consumer.Waiting?
      modifies this`consumer, this`buffers, this`currentBuf, this`nextBuf, this`buf1, this`buf2, this`writeBuffers
      ensures Valid() && P.Takes(old(Abs()), P.Wake, Abs()) && consumer == P.Swapped
    {
      hide P.Reaches, P.Reachable, AreBuffers, Views, AllInPool, P.SwapStep;
      ghost var s := Abs();
      P.ConsumerAssertsHold(s, "");
      P.SpareGoneIffFullBufferWaits(s);
      Swap();
      P.NextReachable(s, P.Wake, Abs());
    }

    /** The rest of the critical section, entered at once or after the wait. */
    method Swap()
      requires Held() && currentBuf != null
      modifies this`consumer, this`buffers, this`currentBuf, this`nextBuf, this`buf1, this`buf2, this`writeBuffers
      ensures Held() && Abs() == P.SwapStep(old(Abs()))
      ensures writeBuffers == old(buffers) + [old(currentBuf)] && buffers == old(writeBuffers)
      ensures currentBuf == old(buf1) && buf1 == null && consumer == P.Swapped
      ensures if old(nextBuf) == null then nextBuf == old(buf2) && buf2 == null
              else nextBuf == old(nextBuf) && buf2 == old(buf2)
    {
      hide AreBuffers, Views, AllInPool, P.Taken;
      TakeBuffers();
      if nextBuf == null {
        nextBuf, buf2 := buf2, null;
      }
      consumer := P.Swapped;
    }

    method TakeBuffers()
      requires Held() && currentBuf != null
      modifies this`buffers, this`currentBuf, this`buf1, this`writeBuffers
      ensures Held() && Abs() == P.Taken(old(Abs()))
      ensures writeBuffers == old(buffers) + [old(currentBuf)] && buffers == old(writeBuffers)
      ensures currentBuf == old(buf1) && buf1 == null
    {
      hide AreBuffers, Views, AllInPool;
      ViewsOneMore(buffers, currentBuf);
      buffers := buffers + [currentBuf];
      currentBuf, buf1 := buf1, null;
      writeBuffers, buffers := buffers, writeBuffers;
    }

    method CheckCount(notice: string)
      requires Valid() && consumer.Swapped?
      modifies this`consumer, this`output, this`writeBuffers
      ensures Valid() && P.Takes(old(Abs()), P.CheckCount(notice), Abs())
      ensures if |old(writeBuffers)| > 25
              then output == old(output) + notice && writeBuffers == old(writeBuffers)[..2]
              else output == old(output) && writeBuffers == old(writeBuffers)
    {
      hide P.Reaches, P.Reachable, AreBuffers, Views;
      ghost var s := Abs();
      P.ConsumerAssertsHold(s, notice);
      assert writeBuffers != [];
      if |writeBuffers| > 25 {
        output := output + notice;
        SameViews(writeBuffers[..2], s.writeBuffers[..2]);
        writeBuffers := writeBuffers[..2];
      }
      consumer := P.Writing(0);
      P.NextReachable(s, P.CheckCount(notice), Abs());
    }

    /** One turn of the loop over `write_buffers`. */
    method WriteBuffer()
      requires Valid() && consumer.Writing? && consumer.next < |writeBuffers|
      modifies this`consumer, this`output
      ensures Valid() && P.Takes(old(Abs()), P.WriteBuffer, Abs())
      ensures output == old(output) + old(Abs()).writeBuffers[old(consumer.next)].text
      ensures Abs().writeBuffers == old(Abs()).writeBuffers && consumer == P.Writing(old(consumer.next) + 1)
    {
      hide P.Reaches, P.Reachable, AreBuffers, Views;
      ghost var s := Abs();
      var b := writeBuffers[consumer.next];
      assert b in pool;
      IsValid(b);
      assert b.View() == s.writeBuffers[consumer.next];
      output := output + b.data[..b.cur];
      consumer := P.Writing(consumer.next + 1);
      P.NextReachable(s, P.WriteBuffer, Abs());
    }

    /** The loop writes the buffers in order, as that many WriteBuffer steps. */
    method WriteBuffers()
      requires Valid() && consumer == P.Writing(0)
      modifies this`consumer, this`output
      ensures Valid() && P.Reaches(old(Abs()), seq(|writeBuffers|, _ => P.WriteBuffer), Abs())
      ensures output == old(output) + P.Texts(old(Abs()).writeBuffers)
      ensures consumer == P.Writing(|writeBuffers|)
    {
      hide P.Reaches, P.Reachable, P.Enabled, P.Next, P.Texts, AreBuffers, Views, AllInPool;
      ghost var s := Abs();
      ghost var steps: seq<P.Step> := [];
      P.NoStep(s);
      P.NoTexts();
      assert s.writeBuffers[..0] == [] && s.writeBuffers[..|writeBuffers|] == s.writeBuffers;
      for i := 0 to |writeBuffers|
        invariant Valid() && Abs().writeBuffers == s.writeBuffers
        invariant consumer == P.Writing(i)
        invariant output == old(output) + P.Texts(s.writeBuffers[..i])
        invariant steps == seq(i, _ => P.WriteBuffer) && P.Reaches(s, steps, Abs())
      {
        ghost var before := Abs();
        WriteBuffer();
        P.OneMoreStep(s, steps, before, P.WriteBuffer);
        P.TextsOneMore(s.writeBuffers, i);
        steps := steps + [P.WriteBuffer];
      }
    }

    method ResetFirst()
      requires Held() && buf1 != null && Alone(buf1)
      modifies buf1`cur
      ensures Held() && Abs() == P.ResetFirst(old(Abs()))
    {
      OneOwner(buf1);
      hide P.Owners, P.Copies;
      ghost var vs, ws := Views(buffers), Views(writeBuffers);
      buf1.Reset();
      assert PoolValid();
      SameViews(buffers, vs);
      SameViews(writeBuffers, ws);
    }

    method ResetSecond()
      requires Held() && buf2 != null && Alone(buf2)
      modifies buf2`cur
      ensures Held() && Abs() == P.ResetSecond(old(Abs()))
    {
      OneOwner(buf2);
      hide P.Owners, P.Copies;
      ghost var vs, ws := Views(buffers), Views(writeBuffers);
      buf2.Reset();
      assert PoolValid();
      SameViews(buffers, vs);
      SameViews(writeBuffers, ws);
    }

    /** `buf1 = std::move(write_buffers.back()); write_buffers.pop_back();` */
    method LastToFirst()
      requires Held() && writeBuffers != []
      modifies this`buf1, this`writeBuffers
      ensures Held() && buf1 != null && Abs() == P.LastToFirst(old(Abs()))
      ensures var n := old(|writeBuffers|) - 1; buf1 == old(writeBuffers)[n] && writeBuffers == old(writeBuffers)[..n]
    {
      var n := |writeBuffers| - 1;
      hide AreBuffers, Views;
      ViewsPrefix(writeBuffers, n);
      IsValid(writeBuffers[n]);
      assert Views(writeBuffers)[n] == writeBuffers[n].View();
      buf1 := writeBuffers[n];
      writeBuffers := writeBuffers[..n];
    }

    method LastToSecond()
      requires Held() && writeBuffers != []
      modifies this`buf2, this`writeBuffers
      ensures Held() && buf2 != null && Abs() == P.LastToSecond(old(Abs()))
      ensures var n := old(|writeBuffers|) - 1; buf2 == old(writeBuffers)[n] && writeBuffers == old(writeBuffers)[..n]
    {
      var n := |writeBuffers| - 1;
      hide AreBuffers, Views;
      ViewsPrefix(writeBuffers, n);
      IsValid(writeBuffers[n]);
      assert Views(writeBuffers)[n] == writeBuffers[n].View();
      buf2 := writeBuffers[n];
      writeBuffers := writeBuffers[..n];
    }

    method RefillFirst()
      requires Held() && AllAlone() && buf1 == null && writeBuffers != []
      modifies this`buf1, this`writeBuffers, memory
      ensures Held() && AllAlone() && Abs() == P.ResetFirst(P.LastToFirst(old(Abs())))
      ensures var n := old(|writeBuffers|) - 1; buf1 == old(writeBuffers)[n] && writeBuffers == old(writeBuffers)[..n]
    {
      hide P.Owners, AreBuffers, Views, AllInPool;
      ghost var s := Abs();
      forall id: nat
        ensures P.Owners(P.LastToFirst(s), id) <= 1 && P.Owners(P.ResetFirst(P.LastToFirst(s)), id) <= 1
      {
        P.RefillingKeepsOwners(s, id);
      }
      LastToFirst();
      IsValid(buf1);
      ResetFirst();
    }

    method RefillSecond()
      requires Held() && AllAlone() && buf2 == null && writeBuffers != []
      modifies this`buf2, this`writeBuffers, memory
      ensures Held() && AllAlone() && Abs() == P.ResetSecond(P.LastToSecond(old(Abs())))
      ensures var n := old(|writeBuffers|) - 1; buf2 == old(writeBuffers)[n] && writeBuffers == old(writeBuffers)[..n]
    {
      hide P.Owners, AreBuffers, Views, AllInPool;
      ghost var s := Abs();
      forall id: nat
        ensures P.Owners(P.LastToSecond(s), id) <= 1 && P.Owners(P.ResetSecond(P.LastToSecond(s)), id) <= 1
      {
        P.RefillingKeepsOwners(s, id);
      }
      LastToSecond();
      IsValid(buf2);
      ResetSecond();
    }

    /** `write_buffers.resize(2)`, if there are more. */
    method Shrink()
      requires Held()
      modifies this`writeBuffers
      ensures Held() && Abs() == (var s := old(Abs()); s.(writeBuffers := P.Shrunk(s.writeBuffers)))
      ensures writeBuffers == if |old(writeBuffers)| > 2 then old(writeBuffers)[..2] else old(writeBuffers)
    {
      hide AreBuffers, Views;
      if |writeBuffers| > 2 {
        ViewsPrefix(writeBuffers, 2);
        writeBuffers := writeBuffers[..2];
      }
    }

    method Refill()
      requires Held() && AllAlone() && buf1 == null && 1 <= |writeBuffers| <= 2
      requires buf2 == null <==> |writeBuffers| == 2
      modifies this`buf1, this`buf2, this`writeBuffers, memory
      ensures Held() && Abs() == P.Refilled(old(Abs()))
      ensures buf1 == old(writeBuffers)[|old(writeBuffers)| - 1]
      ensures buf2 == if old(buf2) == null then old(writeBuffers)[0] else old(buf2)
    {
      hide P.Owners, AreBuffers, Views, AllInPool, P.ResetFirst, P.ResetSecond;
      assert writeBuffers != [];
      RefillFirst();
      if buf2 == null {
        assert writeBuffers != [];
        RefillSecond();
      }
    }

    method TakeSpares()
      requires Held() && AllAlone() && buf1 == null && 1 <= |writeBuffers| <= 2
      requires buf2 == null <==> |writeBuffers| == 2
      modifies this`buf1, this`buf2, this`writeBuffers, memory
      ensures Held() && Abs() == P.Refilled(old(Abs()))
      ensures buf1 == old(writeBuffers)[|old(writeBuffers)| - 1]
      ensures buf2 == if old(buf2) == null then old(writeBuffers)[0] else old(buf2)
    {
      hide P.Owners, AreBuffers, Views, AllInPool, P.Refilled;
      ghost var s := Abs();
      Shrink();
      assert Abs() == s && writeBuffers == old(writeBuffers);
      Refill();
    }

    method Recycle()
      requires Valid() && consumer == P.Writing(|writeBuffers|)
      modifies this`buf1, this`buf2, this`writeBuffers, this`consumer, memory
      ensures Valid() && P.Takes(old(Abs()), P.Recycle, Abs())
      ensures writeBuffers == [] && consumer == P.LoopHead && |old(writeBuffers)| > 0
      ensures buf1 == old(writeBuffers)[|old(writeBuffers)| - 1]
      ensures buf2 == if old(buf2) == null then old(writeBuffers)[0] else old(buf2)
    {
      hide P.Reachable, P.Takes, P.Refilled, AreBuffers, Views, AllInPool, AllAlone;
      ghost var s := Abs();
      EachAlone();
      P.RecycleInParts(s);
      TakeSpares();
      Clear();
      P.NextReachable(s, P.Recycle, Abs());
    }

    /** `write_buffers.clear()`, and the loop starts over. */
    method Clear()
      requires Held()
      modifies this`writeBuffers, this`consumer
      ensures Held() && Abs() == old(Abs()).(writeBuffers := [], consumer := P.LoopHead)
    {
      hide AreBuffers, Views;
      writeBuffers := [];
      consumer := P.LoopHead;
    }

    /** The next statement of ConsumeLog, whichever it is: it is always defined. */
    method Consume(notice: string)
      requires Valid() && !consumer.Exited?
      modifies this, memory
      ensures Valid() && P.Takes(old(Abs()), P.ConsumerStep(old(Abs()), notice), Abs())
    {
      P.ConsumerAssertsHold(Abs(), notice);
      hide P.Takes, P.Reachable, AreBuffers, Views, AllInPool;
      match consumer
      case LoopHead => CheckStop();
      case BeforeLock => Lock();
      case Waiting => Wake();
      case Swapped => CheckCount(notice);
      case Writing(i) =>
        if i < |writeBuffers| {
          WriteBuffer();
        } else {
          Recycle();
        }
    }
  }
}
