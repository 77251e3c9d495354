/** The shared array of base/sarray.h: several SArrays may point into one allocation, and
    reallocation gives one of them memory of its own. */
module SArrays {
  import opened Arithmetic
  import opened Wrappers

  /** What an SArray points at: the allocation (null if none), where data() lies in it, and the two
      counts. */
  datatype Extent = Extent(buf: array?<int>, off: nat, size: nat, capacity: nat)

  /** What an SArray has cost so far: elements moved by reallocation and elements filled in. */
  datatype Cost = Cost(size: nat, capacity: nat, copied: nat, filled: nat)

  function Fill(n: nat, val: int): seq<int> {
    seq(n, _ => val)
  }

  function Resized(s: seq<int>, n: nat, val: int): (r: seq<int>)
    ensures |r| == n
  {
    if n <= |s| then s[..n] else s + Fill(n - |s|, val)
  }

  /** A prefix stays, and what is new has the given value. */
  lemma ResizedElements(s: seq<int>, n: nat, val: int)
    ensures forall k :: 0 <= k < n ==> Resized(s, n, val)[k] == if k < |s| then s[k] else val
  {}

  function SegmentOf(x: Extent, begin: nat, end: nat): Extent
    requires begin <= end <= x.size
  {
    Extent(x.buf, x.off + begin, end - begin, end - begin)
  }

  /** The ranges [off, off + n) of two allocations share no element. */
  predicate Apart(a: array?<int>, aOff: nat, b: array?<int>, bOff: nat, n: nat) {
    a != b || a == null || aOff + n <= bOff || bOff + n <= aOff
  }

  class SArray {
    var buf: array?<int>
    var off: nat
    var size: nat
    var capacity: nat
    ghost var copied: nat
    ghost var filled: nat

    ghost predicate Valid()
      reads this
    {
      && size <= capacity
      && (if buf == null then off == 0 && capacity == 0 else off + capacity <= buf.Length)
    }

    ghost function Elems(): (s: seq<int>)
      requires Valid()
      reads this, buf
      ensures |s| == size
    {
      if buf == null then [] else buf[off..off + size]
    }

    ghost function Where(): Extent
      reads this
    {
      Extent(buf, off, size, capacity)
    }

    ghost function Spent(): Cost
      reads this
    {
      Cost(size, capacity, copied, filled)
    }

    constructor ()
      ensures Valid() && Elems() == [] && Where() == Extent(null, 0, 0, 0) && Spent() == Cost(0, 0, 0, 0)
    {
      buf, off, size, capacity := null, 0, 0, 0;
      copied, filled := 0, 0;
    }

    /** `reset` with an allocation of at least n elements, or with no allocation. */
    method Reset(data: array?<int>, n: nat)
      requires if data == null then n == 0 else n <= data.Length
      modifies this
      ensures Valid() && Where() == Extent(data, 0, n, n)
      ensures copied == old(copied) && filled == old(filled)
    {
      buf, off, size, capacity := data, 0, n, n;
    }

    /** Within the capacity only the elements behind the old ones are written; beyond it they move to
        new memory and the old allocation is left as it was. */
    method Resize(n: nat, val: int)
      requires Valid()
      modifies this, buf
      ensures Valid() && Elems() == Resized(old(Elems()), n, val)
      ensures if n <= old(capacity) then Where() == old(Where()).(size := n)
              else fresh(buf) && buf.Length == n + 5 && Where() == Extent(buf, 0, n, n)
      ensures old(buf) != null ==> forall k | 0 <= k < old(buf).Length ::
                (n <= old(capacity) && old(off + size) <= k < old(off) + n) || old(buf)[k] == old(buf[k])
      ensures copied == old(copied) + (if n <= old(capacity) then 0 else old(size))
      ensures filled == old(filled) + (if n <= old(size) then 0 else n - old(size))
    {
      var curN := size;
      if capacity >= n {
        size := n;
      } else {
        Move(n);
      }
      if n <= curN {
        assert Elems() == old(Elems())[..n];
        return;
      }
      FillTail(curN, val);
    }

    /** Moves the elements to new memory for n, leaving the rest of them to be filled in. */
    method Move(n: nat)
      requires Valid() && n > capacity
      modifies this
      ensures Valid() && fresh(buf) && buf.Length == n + 5 && Where() == Extent(buf, 0, n, n)
      ensures Elems()[..old(size)] == old(Elems())
      ensures copied == old(copied) + old(size) && filled == old(filled)
    {
      var newData := new int[n + 5];
      if buf != null {
        forall k | 0 <= k < size { newData[k] := buf[off + k]; }
      }
      copied := copied + size;
      Reset(newData, n);
    }

    method FillTail(from: nat, val: int)
      requires Valid() && buf != null && from < size
      modifies this`filled, buf
      ensures Valid() && Elems() == old(Elems())[..from] + Fill(size - from, val)
      ensures forall k | 0 <= k < buf.Length :: off + from <= k < off + size || buf[k] == old(buf[k])
      ensures filled == old(filled) + (size - from)
    {
      filled := filled + (size - from);
      if val == 0 {
        forall k | from <= k < size { buf[off + k] := 0; }
      } else {
        FillLoop(off + from, size - from, val);
      }
    }

    /** The loop for a value other than 0, over memory that holds n elements from p on. */
    method FillLoop(p: nat, n: nat, val: int)
      requires buf != null && p + n <= buf.Length
      modifies buf
      ensures forall k | 0 <= k < buf.Length :: buf[k] == if p <= k < p + n then val else old(buf[k])
    {
      for i := 0 to n
        invariant forall k | 0 <= k < buf.Length :: buf[k] == if p <= k < p + i then val else old(buf[k])
      {
        buf[p + i] := val;
      }
    }

    method Reserve(n: nat)
      requires Valid()
      modifies this, buf
      ensures Valid() && Elems() == old(Elems())
      ensures if n <= old(capacity) then Where() == old(Where())
              else fresh(buf) && buf.Length == n + 5 && Where() == Extent(buf, 0, old(size), n)
      ensures old(buf) != null ==> old(buf)[..] == old(buf[..])
      ensures Spent() == if n <= old(capacity) then old(Spent())
                         else Cost(old(size), n, old(copied) + old(size), old(filled) + n - old(size))
    {
      if capacity >= n {
        return;
      }
      var oldSize := size;
      Resize(n, 0);
      size := oldSize;
    }

    /** A full array moves; otherwise the one element behind the last is overwritten, which other
        arrays on the same allocation see. */
    method PushBack(val: int)
      requires Valid()
      modifies this, buf
      ensures Valid() && Elems() == old(Elems()) + [val]
      ensures if old(size) < old(capacity) then Where() == old(Where()).(size := old(size) + 1)
              else fresh(buf) && Where() == Extent(buf, 0, old(size) + 1, 2 * old(size) + 5)
      ensures old(buf) != null ==>
                old(buf)[..] == (if old(size) < old(capacity) then old(buf[..])[old(off + size) := val]
                                 else old(buf[..]))
      ensures Spent() == AfterPush(old(Spent()))
    {
      if size == capacity {
        Reserve(size * 2 + 5);
      }
      buf[off + size] := val;
      size := size + 1;
    }

    method PopBack()
      requires Valid()
      modifies this
      ensures Valid() && Elems() == if old(Elems()) == [] then [] else old(Elems())[..old(size) - 1]
      ensures Where() == old(Where()).(size := if old(size) == 0 then 0 else old(size) - 1)
      ensures Spent() == AfterPop(old(Spent()))
    {
      if size > 0 {
        size := size - 1;
      }
    }

    /** `memcpy(data() + at, arr.data(), n)`: the ranges must not overlap. */
    method CopyElements(at: nat, arr: SArray, n: nat)
      requires Valid() && arr.Valid() && buf != null && at + n == size && arr != this && n <= arr.size
      requires Apart(buf, off + at, arr.buf, arr.off, n)
      modifies buf
      ensures Elems() == old(Elems())[..at] + old(arr.Elems())[..n]
      ensures forall k | 0 <= k < buf.Length :: off + at <= k < off + size || buf[k] == old(buf[k])
    {
      ghost var mine, theirs := Elems(), arr.Elems();
      forall k | 0 <= k < n { buf[off + at + k] := arr.buf[arr.off + k]; }
      ghost var now, want := Elems(), mine[..at] + theirs[..n];
      assert |now| == |want|;
      forall k | 0 <= k < |now| ensures now[k] == want[k] {
        assert now[k] == buf[off + k];
        assert k < at ==> buf[off + k] == mine[k];
        assert k >= at ==> buf[off + k] == theirs[k - at];
      }
    }

    /** Writes outside its elements leave an array as it was. */
    twostate lemma Untouched()
      requires old(Valid()) && unchanged(this)
      requires buf != null ==> forall k | off <= k < off + size :: buf[k] == old(buf[k])
      ensures Valid() && Elems() == old(Elems())
    {}

    /** From another SArray whose elements lie apart from the range that is extended in place. */
    method Append(arr: SArray)
      requires Valid() && arr.Valid() && arr != this
      requires size + arr.size <= capacity ==> Apart(buf, off + size, arr.buf, arr.off, arr.size)
      modifies this, buf
      ensures Valid() && Elems() == old(Elems()) + old(arr.Elems())
      ensures arr.Valid() && arr.Elems() == old(arr.Elems())
    {
      if arr.size == 0 {
        return;
      }
      var origSize := size;
      Resize(size + arr.size, 0);
      arr.Untouched();
      assert Elems()[..origSize] == old(Elems());
      hide Resized;
      label filled:
      CopyElements(origSize, arr, arr.size);
      arr.Untouched@filled();
    }

    /** From another SArray whose elements lie apart from the range that is overwritten. */
    method CopyFrom(other: SArray)
      requires Valid() && other.Valid()
      requires other != this && other.size <= capacity ==> Apart(buf, off, other.buf, other.off, other.size)
      modifies this, buf
      ensures Valid() && Elems() == old(other.Elems())
      ensures other.Valid() && other.Elems() == old(other.Elems())
    {
      if other == this {
        return;
      }
      Resize(other.size, 0);
      hide Resized;
      other.Untouched();
      if other.size == 0 {
        return;
      }
      label resized:
      CopyElements(0, other, other.size);
      other.Untouched@resized();
    }

    method Clear()
      modifies this
      ensures Valid() && Elems() == [] && buf == null
    {
      Reset(null, 0);
    }

    function At(i: nat): int
      requires Valid() && i < size
      reads this, buf
    {
      buf[off + i]
    }

    /** `operator[]` as the target of an assignment. */
    method Set(i: nat, val: int)
      requires Valid() && i < size
      modifies buf
      ensures Elems() == old(Elems())[i := val]
      ensures buf[..] == old(buf[..])[off + i := val]
    {
      buf[off + i] := val;
    }

    /** The slice [begin, end) of the same memory. */
    method Segment(begin: nat, end: nat) returns (s: SArray)
      requires Valid() && begin <= end <= size
      ensures fresh(s) && s.Valid() && s.Where() == SegmentOf(Where(), begin, end)
      ensures s.Elems() == Elems()[begin..end]
    {
      s := new SArray();
      s.buf, s.off := buf, off + begin;
      s.size, s.capacity := end - begin, end - begin;
      ghost var slice, want := s.Elems(), Elems()[begin..end];
      assert |slice| == |want|;
      forall k | 0 <= k < |slice| ensures slice[k] == want[k] {
        assert slice[k] == buf[off + begin + k];
        assert want[k] == Elems()[begin + k];
      }
    }
  }

  // ------------------------------------------------------------------ what growing costs

  function AfterPush(c: Cost): Cost {
    if c.size < c.capacity then
      c.(size := c.size + 1)
    else
      Cost(c.size + 1, 2 * c.size + 5, c.copied + c.size, c.filled + c.size + 5)
  }

  function AfterPop(c: Cost): Cost {
    if c.size == 0 then c else c.(size := c.size - 1)
  }

  datatype Op = Push | Pop

  /** A run of push_back and pop_back from an empty array. */
  function AfterRun(ops: seq<Op>): Cost {
    if ops == [] then Cost(0, 0, 0, 0)
    else
      var before := AfterRun(ops[..|ops| - 1]);
      if ops[|ops| - 1].Push? then AfterPush(before) else AfterPop(before)
  }

  function Pushes(ops: seq<Op>): nat {
    if ops == [] then 0
    else Pushes(ops[..|ops| - 1]) + (if ops[|ops| - 1].Push? then 1 else 0)
  }

  /** Everything filled in so far is the capacity, and all but five per reallocation was copied. */
  lemma {:induction false} GrowthInvariant(ops: seq<Op>)
    ensures CostBounded(AfterRun(ops), Pushes(ops))
  {
    if ops != [] {
      GrowthInvariant(ops[..|ops| - 1]);
      GrowthStep(AfterRun(ops[..|ops| - 1]), Pushes(ops[..|ops| - 1]));
    }
  }

  ghost predicate CostBounded(c: Cost, pushes: nat) {
    && c.size <= c.capacity && c.size <= pushes
    && c.filled == c.capacity
    && (if c.capacity == 0 then c.copied == 0 else c.copied + 5 <= c.capacity <= 2 * pushes + 3)
  }

  lemma GrowthStep(c: Cost, pushes: nat)
    requires CostBounded(c, pushes)
    ensures CostBounded(AfterPush(c), pushes + 1) && CostBounded(AfterPop(c), pushes)
  {}

  /** n pushes, however mixed with pops, copy fewer than 2n elements and fill in at most 2n + 3. */
  lemma GrowthIsLinear(ops: seq<Op>)
    requires Pushes(ops) >= 1
    ensures AfterRun(ops).copied < 2 * Pushes(ops)
    ensures AfterRun(ops).filled <= 2 * Pushes(ops) + 3
  {
    GrowthInvariant(ops);
  }

  // ------------------------------------------------------------------ sharing

  /** A segment of a segment is a segment of the whole. */
  lemma SegmentsCompose(x: Extent, a: nat, b: nat, c: nat, d: nat)
    requires a <= b <= x.size && c <= d <= b - a
    ensures SegmentOf(SegmentOf(x, a, b), c, d) == SegmentOf(x, a + c, a + d)
  {}

  /** A write through a segment is seen in the parent at the shifted index, and nowhere else. */
  method WriteThroughSegment(parent: SArray, begin: nat, end: nat, i: nat, val: int)
    requires parent.Valid() && begin <= end <= parent.size && i < end - begin
    modifies parent.buf
    ensures parent.Valid() && parent.Elems() == old(parent.Elems())[begin + i := val]
  {
    var s := parent.Segment(begin, end);
    s.Set(i, val);
  }

  /** A segment is full, so pushing on it moves it away: the parent keeps its elements. */
  method PushOnSegment(parent: SArray, begin: nat, end: nat, val: int) returns (s: SArray)
    requires parent.Valid() && begin <= end <= parent.size
    modifies parent.buf
    ensures parent.Valid() && parent.Elems() == old(parent.Elems())
    ensures s.Valid() && s.Elems() == parent.Elems()[begin..end] + [val]
    ensures fresh(s) && fresh(s.buf)
  {
    s := parent.Segment(begin, end);
    s.PushBack(val);
  }

  /** With room behind its last element an array does not move, and an array that shares its memory
      sees the push: here a copy whose last element is popped and pushed anew. */
  method PopAndPushOnCopy(parent: SArray, val: int)
    requires parent.Valid() && parent.size > 0
    modifies parent.buf
    ensures parent.Valid() && parent.Elems() == old(parent.Elems())[parent.size - 1 := val]
  {
    var s := new SArray();
    s.buf, s.off, s.size, s.capacity := parent.buf, parent.off, parent.size, parent.capacity;
    s.PopBack();
    s.PushBack(val);
  }

  // ------------------------------------------------------------------ the same memory as another type

  /** `operator=` from elements `from` bytes wide to elements `to` bytes wide: the new size and
      capacity, or None where the source's CHECK fails. */
  function Cast(size: nat, capacity: nat, from: nat, to: nat): Option<(nat, nat)>
    requires to > 0
  {
    var newSize := size * from / to;
    if newSize * to == size * from then Some((newSize, capacity * from / to)) else None
  }

  /** A cast keeps the number of bytes, and claims no more memory than there is. */
  lemma CastKeepsBytes(size: nat, capacity: nat, from: nat, to: nat)
    requires size <= capacity && to > 0
    ensures Cast(size, capacity, from, to).Some? <==> (size * from) % to == 0
    ensures Cast(size, capacity, from, to).Some? ==>
              var (n, c) := Cast(size, capacity, from, to).value;
              n * to == size * from && n <= c && c * to <= capacity * from < (c + 1) * to
  {
    ProductGrows(size, capacity, from);
    QuotientBounds(size * from, capacity * from, to);
  }
}
