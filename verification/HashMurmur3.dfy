/** MurmurHash3 (base/hash_murmur3.cc): the 32-bit hash for keys of every length, and the 128-bit
    hash for keys shorter than one 16-byte block. Each is a program in the sense of WordPrograms,
    made from the key and run on the seed, and that is where the collision theorems below come from.
    Word loads are little-endian. */
module HashMurmur3 {
  import opened Arithmetic
  import opened MachineWords
  import opened Slices
  import opened WordPrograms

  type Byte = b: int | 0 <= b < 256

  /** `len` is a C `int`, so a key is shorter than 2^31 bytes. */
  const INT_LIMIT: nat := 0x8000_0000

  // ------------------------------------------------------------------ bytes and words

  function LittleEndian(bytes: seq<Byte>): nat {
    if bytes == [] then 0 else bytes[0] + 256 * LittleEndian(bytes[1..])
  }

  lemma {:induction false} LittleEndianIsWord(bytes: seq<Byte>)
    ensures IsWord(LittleEndian(bytes), 8 * |bytes|)
  {
    if bytes != [] {
      LittleEndianIsWord(bytes[1..]);
      Pow2Literals();
      Pow2Sum(8, 8 * (|bytes| - 1));
    }
  }

  lemma {:induction false} LittleEndianIsInjective(a: seq<Byte>, b: seq<Byte>)
    requires |a| == |b| && LittleEndian(a) == LittleEndian(b)
    ensures a == b
  {
    if a != [] {
      assert a[0] == b[0];
      LittleEndianIsInjective(a[1..], b[1..]);
      assert a == [a[0]] + a[1..] && b == [b[0]] + b[1..];
    }
  }

  /** What a fall-through `switch` has gathered once it has passed byte j: each byte is shifted to
      its place and xor-ed in, the highest first. */
  function Gathered(bytes: seq<Byte>, j: nat): nat
    requires j <= |bytes|
    decreases |bytes| - j
  {
    if j == |bytes| then 0 else Xor(Gathered(bytes, j + 1), bytes[j] * Pow2(8 * j))
  }

  /** Xor-ing a byte in below what has been gathered so far puts it in front. */
  lemma JoinByte(b: Byte, rest: nat, j: nat)
    ensures Xor(rest * Pow2(8 * (j + 1)), b * Pow2(8 * j)) == (b + 256 * rest) * Pow2(8 * j)
  {
    var p := Pow2(8 * j);
    assert Pow2(8 * (j + 1)) == 256 * p by {
      Pow2Literals();
      Pow2Sum(8, 8 * j);
    }
    hide Pow2, Xor;
    PlaceByte(b, p);
    XorDisjoint(rest, b * p, 8 * (j + 1));
    Regroup(b, rest, p);
  }

  lemma Regroup(b: int, rest: int, p: int)
    ensures rest * (256 * p) + b * p == (b + 256 * rest) * p
  {}

  lemma PlaceByte(b: Byte, p: nat)
    requires p > 0
    ensures 0 <= b * p < 256 * p
  {
    var gap: int := 256 - b;
    AtLeastOnce(gap, p);
    assert gap * p == 256 * p - b * p;
  }

  /** The fall-through gathering is a little-endian load. */
  lemma {:induction false} GatheredIsLittleEndian(bytes: seq<Byte>, j: nat)
    requires j <= |bytes|
    ensures Gathered(bytes, j) == LittleEndian(bytes[j..]) * Pow2(8 * j)
    decreases |bytes| - j
  {
    if j < |bytes| {
      GatheredIsLittleEndian(bytes, j + 1);
      JoinByte(bytes[j], LittleEndian(bytes[j + 1..]), j);
      assert bytes[j..][1..] == bytes[j + 1..];
    }
  }

  lemma GatheredAll(bytes: seq<Byte>)
    ensures Gathered(bytes, 0) == LittleEndian(bytes)
  {
    GatheredIsLittleEndian(bytes, 0);
    assert bytes[0..] == bytes;
  }

  // ------------------------------------------------------------------ hash32

  const C1: nat := 0xcc9e2d51
  const C2: nat := 0x1b873593
  const C3: nat := 0xe6546b64
  const C4: nat := 0x85ebca6b
  const C5: nat := 0xc2b2ae35

  /** The i-th aligned word of the key. */
  function LoadBlock(key: seq<Byte>, i: nat): (k: nat)
    requires 4 * i + 4 <= |key|
    ensures IsWord(k, 32)
  {
    LittleEndianIsWord(key[4 * i..4 * i + 4]);
    LittleEndian(key[4 * i..4 * i + 4])
  }

  /** The zero to three bytes after the last block. */
  function TailOf(key: seq<Byte>): (tail: seq<Byte>)
    ensures |tail| == |key| % 4
  {
    key[|key| / 4 * 4..]
  }

  function LoadTail(key: seq<Byte>): (k: nat)
    ensures IsWord(k, 32)
  {
    LittleEndianIsWord(TailOf(key));
    WiderWord(LittleEndian(TailOf(key)), 8 * |TailOf(key)|, 32);
    LittleEndian(TailOf(key))
  }

  /** `k *= c1; ROTL32(&k, 15); k *= c2;` */
  function ScrambleOps(): (ops: seq<Op>)
    ensures AllFit(ops, 32)
  {
    [Multiply(C1), Rotate(15), Multiply(C2)]
  }

  function Scrambled(k: nat): (op: Op)
    requires IsWord(k, 32)
    ensures Fits(op, 32) && op.XorIn?
  {
    XorIn(Run(ScrambleOps(), k, 32))
  }

  /** `ROTL32(&h, 13); h = h*5 + c3;` */
  function MixOps(): (ops: seq<Op>)
    ensures AllFit(ops, 32)
  {
    Pow2Literals();
    [Rotate(13), Multiply(5), Add(C3)]
  }

  /** `h ^= len;` and the finaliser. */
  function FinishOps(len: nat): (ops: seq<Op>)
    requires len < INT_LIMIT
    ensures AllFit(ops, 32)
  {
    Pow2Literals();
    [XorIn(len)] + [ShiftIn(16), Multiply(C4), ShiftIn(13), Multiply(C5), ShiftIn(16)]
  }

  /** What the first n rounds of the loop do. */
  function BlockOps(key: seq<Byte>, n: nat): (ops: seq<Op>)
    requires 4 * n <= |key|
    ensures AllFit(ops, 32)
  {
    if n == 0 then [] else BlockOps(key, n - 1) + [Scrambled(LoadBlock(key, n - 1))] + MixOps()
  }

  function Program32(key: seq<Byte>): (ops: seq<Op>)
    requires |key| < INT_LIMIT
    ensures AllFit(ops, 32)
  {
    BlockOps(key, |key| / 4) + [Scrambled(LoadTail(key))] + FinishOps(|key|)
  }

  function Hash32Of(key: seq<Byte>, seed: nat): (h: nat)
    requires |key| < INT_LIMIT && IsWord(seed, 32)
    ensures IsWord(h, 32)
  {
    Run(Program32(key), seed, 32)
  }

  /** The `switch` on `len & 3`. */
  method GatherTail32(tail: seq<Byte>) returns (k: nat)
    requires |tail| <= 3
    ensures k == LittleEndian(tail)
  {
    k := 0;
    assert k == Gathered(tail, |tail|);
    if |tail| >= 3 { k := Xor(k, tail[2] * Pow2(16)); }
    assert |tail| >= 2 ==> k == Gathered(tail, 2);
    if |tail| >= 2 { k := Xor(k, tail[1] * Pow2(8)); }
    assert |tail| >= 1 ==> k == Gathered(tail, 1);
    if |tail| >= 1 { k := Xor(k, tail[0] * Pow2(0)); }
    GatheredAll(tail);
  }

  method Scramble32(word: nat) returns (k: nat)
    requires IsWord(word, 32)
    ensures Scrambled(word) == XorIn(k)
  {
    k := Times(word, C1, 32); k := Rotl(k, 15, 32); k := Times(k, C2, 32);
    RunThree(Multiply(C1), Rotate(15), Multiply(C2), word, 32);
  }

  /** With no tail the source does not touch h; scrambling the word 0 would not change it either. */
  lemma EmptyTail(h: nat, key: seq<Byte>)
    requires |key| % 4 == 0 && IsWord(h, 32)
    ensures LoadTail(key) == 0 && Scrambled(0) == XorIn(0) && Run([XorIn(0)], h, 32) == h
  {
    hide Run, Xor;
    ScrambledZero(C1, 15, C2, 32);
    RunOne(XorIn(0), h, 32);
    XorZero(h);
  }

  lemma RunMix(h: nat)
    requires IsWord(h, 32)
    ensures Run(MixOps(), h, 32) == Plus(Times(Rotl(h, 13, 32), 5, 32), C3, 32)
  {
    Pow2Literals();
    hide Run, Times, Rotl, Plus, Pow2;
    RunThree(Rotate(13), Multiply(5), Add(C3), h, 32);
  }

  /** One round of the block loop. */
  method Round32(h: nat, word: nat) returns (h': nat)
    requires IsWord(h, 32) && IsWord(word, 32)
    ensures h' == Run([Scrambled(word)] + MixOps(), h, 32)
  {
    hide Run, Times, Rotl, Plus, Xor, IsWord, MixOps, Scrambled;
    var k := Scramble32(word);
    RunJoined([Scrambled(word)], MixOps(), h, 32);
    RunOne(XorIn(k), h, 32);
    h' := Xor(h, k);
    RunMix(h');
    h' := Rotl(h', 13, 32); h' := Plus(Times(h', 5, 32), C3, 32);
  }

  method Tail32(h: nat, key: seq<Byte>) returns (h': nat)
    requires IsWord(h, 32)
    ensures h' == Run([Scrambled(LoadTail(key))], h, 32)
  {
    var k := GatherTail32(TailOf(key));
    assert k == LoadTail(key);
    hide Run, LoadTail, Scrambled;
    if |key| % 4 >= 1 {
      k := Scramble32(k); h' := Xor(h, k);
      RunOne(XorIn(k), h, 32);
    } else {
      h' := h;
      EmptyTail(h, key);
    }
  }

  method Finish32(h: nat, len: nat) returns (h': nat)
    requires IsWord(h, 32) && len < INT_LIMIT
    ensures h' == Run(FinishOps(len), h, 32)
  {
    var ops := FinishOps(len);
    h' := Xor(h, len);
    RunJoined(ops[..1], ops[1..], h, 32);
    RunOne(XorIn(len), h, 32);
    RunFive(ShiftIn(16), Multiply(C4), ShiftIn(13), Multiply(C5), ShiftIn(16), h', 32);
    h' := XorShift(h', 16);
    h' := Times(h', C4, 32); h' := XorShift(h', 13);
    h' := Times(h', C5, 32); h' := XorShift(h', 16);
  }

  method Hash32(key: seq<Byte>, seed: nat) returns (h: nat)
    requires |key| < INT_LIMIT && IsWord(seed, 32)
    ensures h == Hash32Of(key, seed)
  {
    hide Run, BlockOps, FinishOps, MixOps, Scrambled, IsWord, LittleEndian, Hash32Of;
    h := seed;
    var n := |key| / 4;
    var i := 0;
    assert BlockOps(key, 0) == [] by { NoBlocks(key); }
    assert h == Run([], seed, 32) by { NoStep(seed); }
    while i < n
      invariant 0 <= i <= n
      invariant h == Run(BlockOps(key, i), seed, 32)
    {
      var k := LoadBlock(key, i);
      RunOneMoreBlock(key, i, seed);
      h := Round32(h, k);
      i := i + 1;
    }
    RunParts(key, seed);
    h := Tail32(h, key);
    h := Finish32(h, |key|);
  }

  lemma NoStep(x: nat)
    requires IsWord(x, 32)
    ensures Run([], x, 32) == x
  {}

  lemma NoBlocks(key: seq<Byte>)
    ensures BlockOps(key, 0) == []
  {}

  lemma RunOneMoreBlock(key: seq<Byte>, i: nat, seed: nat)
    requires 4 * i + 4 <= |key| && IsWord(seed, 32)
    ensures Run(BlockOps(key, i + 1), seed, 32)
         == Run([Scrambled(LoadBlock(key, i))] + MixOps(), Run(BlockOps(key, i), seed, 32), 32)
  {
    hide Run, MixOps, Scrambled, LoadBlock, IsWord;
    var round := [Scrambled(LoadBlock(key, i))] + MixOps();
    RunJoined(BlockOps(key, i), round, seed, 32);
    assert BlockOps(key, i + 1) == BlockOps(key, i) + round;
  }

  lemma RunParts(key: seq<Byte>, seed: nat)
    requires |key| < INT_LIMIT && IsWord(seed, 32)
    ensures Hash32Of(key, seed)
         == Run(FinishOps(|key|), Run([Scrambled(LoadTail(key))], Run(BlockOps(key, |key| / 4), seed, 32), 32), 32)
  {
    hide Run, BlockOps, FinishOps, Scrambled, LoadTail, IsWord;
    var blocks, tail := BlockOps(key, |key| / 4), [Scrambled(LoadTail(key))];
    RunJoined(blocks, tail, seed, 32);
    RunJoined(blocks + tail, FinishOps(|key|), seed, 32);
  }

  // ------------------------------------------------------------------ hash32: the theorems

  /** The explicit inverse of the hash in its seed. */
  function SeedOf(key: seq<Byte>, h: nat): (seed: nat)
    requires |key| < INT_LIMIT && IsWord(h, 32)
    ensures IsWord(seed, 32)
  {
    Unrun(Program32(key), h, 32)
  }

  /** For every key of every length, the hash is a permutation of the 32-bit seeds. */
  lemma SeedIsPermutation(key: seq<Byte>, seed: nat)
    requires |key| < INT_LIMIT && IsWord(seed, 32)
    ensures SeedOf(key, Hash32Of(key, seed)) == seed
    ensures Hash32Of(key, SeedOf(key, seed)) == seed
  {
    RunUndone(Program32(key), seed, 32);
  }

  /** Two keys of one length that agree outside the bytes from lo up to hi. */
  ghost predicate AgreeOutside(a: seq<Byte>, b: seq<Byte>, lo: nat, hi: nat)
    requires lo <= hi <= |a| == |b|
  {
    a[..lo] == b[..lo] && a[hi..] == b[hi..]
  }

  lemma SameBlock(a: seq<Byte>, b: seq<Byte>, lo: nat, hi: nat, i: nat)
    requires lo <= hi <= |a| == |b| && AgreeOutside(a, b, lo, hi)
    requires 4 * i + 4 <= lo || hi <= 4 * i < 4 * i + 4 <= |a|
    ensures LoadBlock(a, i) == LoadBlock(b, i)
  {
    var p, q := 4 * i, 4 * i + 4;
    if q <= lo {
      SliceOfPrefix(a, lo, p, q);
      SliceOfPrefix(b, lo, p, q);
    } else {
      SliceOfSuffix(a, hi, p - hi, q - hi);
      SliceOfSuffix(b, hi, p - hi, q - hi);
    }
  }

  lemma {:induction false} SameBlocksBefore(a: seq<Byte>, b: seq<Byte>, lo: nat, hi: nat, n: nat)
    requires lo <= hi <= |a| == |b| && AgreeOutside(a, b, lo, hi) && 4 * n <= lo
    ensures BlockOps(a, n) == BlockOps(b, n)
  {
    hide LoadBlock, Scrambled, MixOps;
    if n > 0 {
      SameBlock(a, b, lo, hi, n - 1);
      SameBlocksBefore(a, b, lo, hi, n - 1);
    }
  }

  /** What the rounds do after block i has been xor-ed in. */
  function OpsAfter(key: seq<Byte>, i: nat, n: nat): (ops: seq<Op>)
    requires i < n && 4 * n <= |key|
    ensures AllFit(ops, 32)
  {
    if n == i + 1 then MixOps()
    else OpsAfter(key, i, n - 1) + [Scrambled(LoadBlock(key, n - 1))] + MixOps()
  }

  lemma {:induction false} BlockOpsSplit(key: seq<Byte>, i: nat, n: nat)
    requires i < n && 4 * n <= |key|
    ensures BlockOps(key, n) == BlockOps(key, i) + [Scrambled(LoadBlock(key, i))] + OpsAfter(key, i, n)
  {
    hide LoadBlock, Scrambled, MixOps;
    if n > i + 1 {
      BlockOpsSplit(key, i, n - 1);
    }
  }

  lemma {:induction false} SameBlocksAfter(a: seq<Byte>, b: seq<Byte>, i: nat, n: nat)
    requires i < n && 4 * n <= |a| == |b| && AgreeOutside(a, b, 4 * i, 4 * i + 4)
    ensures OpsAfter(a, i, n) == OpsAfter(b, i, n)
  {
    hide LoadBlock, Scrambled, MixOps;
    if n > i + 1 {
      SameBlock(a, b, 4 * i, 4 * i + 4, n - 1);
      SameBlocksAfter(a, b, i, n - 1);
    }
  }

  lemma ScrambledIsInjective(j: nat, k: nat)
    requires IsWord(j, 32) && IsWord(k, 32) && Scrambled(j) == Scrambled(k)
    ensures j == k
  {
    RunUndone(ScrambleOps(), j, 32);
    RunUndone(ScrambleOps(), k, 32);
  }

  /** Keys of any equal length that differ only inside one aligned block, wherever it lies, never
      collide. */
  lemma OneBlockNeverCollides(a: seq<Byte>, b: seq<Byte>, i: nat, seed: nat)
    requires |a| == |b| < INT_LIMIT && IsWord(seed, 32)
    requires 4 * i + 4 <= |a| && AgreeOutside(a, b, 4 * i, 4 * i + 4)
    ensures Hash32Of(a, seed) == Hash32Of(b, seed) <==> a == b
  {
    hide Run, Fits, MixOps, FinishOps, Scrambled, LittleEndian, LoadTail, BlockOps;
    if Hash32Of(a, seed) == Hash32Of(b, seed) {
      var n, lo, hi := |a| / 4, 4 * i, 4 * i + 4;
      var j, k := LoadBlock(a, i), LoadBlock(b, i);
      assert LoadTail(a) == LoadTail(b) by { SameTail(a, b, hi); }
      var before := BlockOps(a, i);
      var after := OpsAfter(a, i, n) + [Scrambled(LoadTail(a))] + FinishOps(|a|);
      SameBlocksBefore(a, b, lo, hi, i);
      SameBlocksAfter(a, b, i, n);
      BlockOpsSplit(a, i, n);
      BlockOpsSplit(b, i, n);
      assert Program32(a) == before + [Scrambled(j)] + after;
      assert Program32(b) == before + [Scrambled(k)] + after;
      OneOperandDecides(before, Scrambled(j).k, Scrambled(k).k, after, seed, 32);
      ScrambledIsInjective(j, k);
      LittleEndianIsInjective(a[lo..hi], b[lo..hi]);
      assert a == a[..lo] + a[lo..hi] + a[hi..];
      assert b == b[..lo] + b[lo..hi] + b[hi..];
    }
  }

  lemma SameTail(a: seq<Byte>, b: seq<Byte>, hi: nat)
    requires |a| == |b| && hi <= |a| / 4 * 4 && a[hi..] == b[hi..]
    ensures LoadTail(a) == LoadTail(b)
  {
    var from := |a| / 4 * 4;
    SliceOfSuffix(a, hi, from - hi, |a| - hi);
    SliceOfSuffix(b, hi, from - hi, |a| - hi);
    assert TailOf(a) == a[from..|a|] && TailOf(b) == b[from..|a|];
  }

  /** Keys of any equal length that differ only in the bytes after the last block never collide. */
  lemma OneTailNeverCollides(a: seq<Byte>, b: seq<Byte>, seed: nat)
    requires |a| == |b| < INT_LIMIT && IsWord(seed, 32)
    requires AgreeOutside(a, b, |a| / 4 * 4, |a|)
    ensures Hash32Of(a, seed) == Hash32Of(b, seed) <==> a == b
  {
    hide Run, Fits, FinishOps, Scrambled, LittleEndian, BlockOps;
    if Hash32Of(a, seed) == Hash32Of(b, seed) {
      var n := |a| / 4;
      var j, k := LoadTail(a), LoadTail(b);
      SameBlocksBefore(a, b, 4 * n, |a|, n);
      OneOperandDecides(BlockOps(a, n), Scrambled(j).k, Scrambled(k).k, FinishOps(|a|), seed, 32);
      ScrambledIsInjective(j, k);
      LittleEndianIsInjective(TailOf(a), TailOf(b));
      assert a == a[..4 * n] + TailOf(a);
      assert b == b[..4 * n] + TailOf(b);
    }
  }

  // ------------------------------------------------------------------ hash128, short keys

  const WIDE_C1: nat := 0x87c37b91114253d5
  const WIDE_C2: nat := 0x4cf5ad432745937f
  const WIDE_C5: nat := 0xff51afd7ed558ccd
  const WIDE_C6: nat := 0xc4ceb9fe1a85ec53

  /** The bytes gathered into k1 and into k2. */
  function LowLane(key: seq<Byte>): (lane: seq<Byte>)
    ensures |lane| <= 8
  {
    if |key| <= 8 then key else key[..8]
  }

  function HighLane(key: seq<Byte>): (lane: seq<Byte>)
    requires |key| < 16
    ensures |lane| < 8
  {
    if |key| <= 8 then [] else key[8..]
  }

  function LoadLane(lane: seq<Byte>): (k: nat)
    requires |lane| <= 8
    ensures IsWord(k, 64)
  {
    LittleEndianIsWord(lane);
    WiderWord(LittleEndian(lane), 8 * |lane|, 64);
    LittleEndian(lane)
  }

  function LowOps(): (ops: seq<Op>)
    ensures AllFit(ops, 64)
  {
    [Multiply(WIDE_C1), Rotate(31), Multiply(WIDE_C2)]
  }

  function HighOps(): (ops: seq<Op>)
    ensures AllFit(ops, 64)
  {
    [Multiply(WIDE_C2), Rotate(33), Multiply(WIDE_C1)]
  }

  function ScrambledLow(key: seq<Byte>): (k: nat)
    ensures IsWord(k, 64)
  {
    Run(LowOps(), LoadLane(LowLane(key)), 64)
  }

  function ScrambledHigh(key: seq<Byte>): (k: nat)
    requires |key| < 16
    ensures IsWord(k, 64)
  {
    Run(HighOps(), LoadLane(HighLane(key)), 64)
  }

  function Avalanche64(): (ops: seq<Op>)
    ensures AllFit(ops, 64)
  {
    [ShiftIn(33), Multiply(WIDE_C5), ShiftIn(33), Multiply(WIDE_C6), ShiftIn(33)]
  }

  lemma LengthFits(len: nat)
    requires len < 16
    ensures Fits(XorIn(len), 64)
  {
    Pow2Literals();
  }

  /** The finaliser: everything after the tail. */
  function Finalizer128(len: nat): (ops: seq<PairOp>)
    requires len < 16
    ensures AllPairFit(ops, 64)
  {
    LengthFits(len);
    OnBothFits([XorIn(len)], 64);
    OnBothFits(Avalanche64(), 64);
    OnBoth([XorIn(len)]) + OnBoth(Avalanche64())
  }

  /** h1 and h2 after the tail. */
  function AfterTail(key: seq<Byte>, seed: nat): (p: Pair)
    requires |key| < 16 && IsWord(seed, 32)
    ensures AreWords(p, 64)
  {
    WiderWord(seed, 32, 64);
    XorIsWord(seed, ScrambledLow(key), 64);
    XorIsWord(seed, ScrambledHigh(key), 64);
    Pair(Xor(seed, ScrambledLow(key)), Xor(seed, ScrambledHigh(key)))
  }

  function Hash128Of(key: seq<Byte>, seed: nat): (p: Pair)
    requires |key| < 16 && IsWord(seed, 32)
    ensures AreWords(p, 64)
  {
    RunPair(Finalizer128(|key|), AfterTail(key, seed), 64)
  }

  /** One lane of the fall-through `switch` on `len & 15`: the bytes of k1, or those of k2, which
      lie eight further on. */
  method GatherLane(lane: seq<Byte>) returns (k: nat)
    requires |lane| <= 8
    ensures k == LittleEndian(lane)
  {
    hide Xor, Pow2;
    k := 0;
    if |lane| >= 8 { k := Xor(k, lane[7] * Pow2(56)); }
    assert |lane| >= 7 ==> k == Gathered(lane, 7);
    if |lane| >= 7 { k := Xor(k, lane[6] * Pow2(48)); }
    assert |lane| >= 6 ==> k == Gathered(lane, 6);
    if |lane| >= 6 { k := Xor(k, lane[5] * Pow2(40)); }
    assert |lane| >= 5 ==> k == Gathered(lane, 5);
    if |lane| >= 5 { k := Xor(k, lane[4] * Pow2(32)); }
    assert |lane| >= 4 ==> k == Gathered(lane, 4);
    if |lane| >= 4 { k := Xor(k, lane[3] * Pow2(24)); }
    assert |lane| >= 3 ==> k == Gathered(lane, 3);
    if |lane| >= 3 { k := Xor(k, lane[2] * Pow2(16)); }
    assert |lane| >= 2 ==> k == Gathered(lane, 2);
    if |lane| >= 2 { k := Xor(k, lane[1] * Pow2(8)); }
    assert |lane| >= 1 ==> k == Gathered(lane, 1);
    if |lane| >= 1 { k := Xor(k, lane[0] * Pow2(0)); }
    assert k == Gathered(lane, 0);
    GatheredAll(lane);
  }

  lemma ScrambledNothing(key: seq<Byte>)
    requires |key| < 16
    ensures |key| == 0 ==> ScrambledLow(key) == 0
    ensures |key| <= 8 ==> ScrambledHigh(key) == 0
  {
    hide Run;
    ScrambledZero(WIDE_C1, 31, WIDE_C2, 64);
    ScrambledZero(WIDE_C2, 33, WIDE_C1, 64);
  }

  method Tail128(key: seq<Byte>, seed: nat) returns (h1: nat, h2: nat)
    requires |key| < 16 && IsWord(seed, 32)
    ensures Pair(h1, h2) == AfterTail(key, seed)
  {
    h1, h2 := seed, seed;
    var k2 := GatherLane(HighLane(key));
    var k1 := GatherLane(LowLane(key));
    assert k1 == LoadLane(LowLane(key)) && k2 == LoadLane(HighLane(key));
    hide Times, Rotl, Xor, Run, LoadLane;
    RunThree(Multiply(WIDE_C1), Rotate(31), Multiply(WIDE_C2), k1, 64);
    RunThree(Multiply(WIDE_C2), Rotate(33), Multiply(WIDE_C1), k2, 64);
    ScrambledNothing(key);
    XorZero(seed);
    if |key| >= 9 {
      k2 := Times(k2, WIDE_C2, 64); k2 := Rotl(k2, 33, 64); k2 := Times(k2, WIDE_C1, 64); h2 := Xor(h2, k2);
    }
    if |key| >= 1 {
      k1 := Times(k1, WIDE_C1, 64); k1 := Rotl(k1, 31, 64); k1 := Times(k1, WIDE_C2, 64); h1 := Xor(h1, k1);
    }
  }

  method Avalanche(h: nat) returns (h': nat)
    requires IsWord(h, 64)
    ensures h' == Run(Avalanche64(), h, 64)
  {
    RunFive(ShiftIn(33), Multiply(WIDE_C5), ShiftIn(33), Multiply(WIDE_C6), ShiftIn(33), h, 64);
    h' := XorShift(h, 33); h' := Times(h', WIDE_C5, 64); h' := XorShift(h', 33);
    h' := Times(h', WIDE_C6, 64); h' := XorShift(h', 33);
  }

  method Hash128Short(key: seq<Byte>, seed: nat) returns (h1: nat, h2: nat)
    requires |key| < 16 && IsWord(seed, 32)
    ensures Pair(h1, h2) == Hash128Of(key, seed)
  {
    h1, h2 := Tail128(key, seed);
    hide Run, RunPair, Xor, Plus, AfterTail, Avalanche64, OnBoth, Fits;
    var len := |key|;
    ghost var p := Pair(h1, h2);
    RunOnBoth([XorIn(len)], p, 64);
    RunOne(XorIn(len), h1, 64);
    RunOne(XorIn(len), h2, 64);
    h1 := Xor(h1, len); h2 := Xor(h2, len);
    h1 := Plus(h1, h2, 64); h2 := Plus(h2, h1, 64);

    RunOnBoth(Avalanche64(), Pair(h1, h2), 64);
    RunPairJoined(OnBoth([XorIn(len)]), OnBoth(Avalanche64()), p, 64);
    h1 := Avalanche(h1);
    h2 := Avalanche(h2);
    h1 := Plus(h1, h2, 64); h2 := Plus(h2, h1, 64);
  }

  // ------------------------------------------------------------------ hash128: the theorems

  /** The finaliser is a bijection on the pairs (h1, h2), with an explicit inverse. */
  lemma FinalizerIsPermutation(p: Pair, len: nat)
    requires AreWords(p, 64) && len < 16
    ensures UnrunPair(Finalizer128(len), RunPair(Finalizer128(len), p, 64), 64) == p
    ensures RunPair(Finalizer128(len), UnrunPair(Finalizer128(len), p, 64), 64) == p
  {
    RunPairUndone(Finalizer128(len), p, 64);
  }

  lemma Hash128DecidesTail(a: seq<Byte>, s: nat, b: seq<Byte>, t: nat)
    requires |a| == |b| < 16 && IsWord(s, 32) && IsWord(t, 32)
    requires Hash128Of(a, s) == Hash128Of(b, t)
    ensures AfterTail(a, s) == AfterTail(b, t)
  {
    hide AfterTail, Finalizer128, RunPair, UnrunPair;
    FinalizerIsPermutation(AfterTail(a, s), |a|);
    FinalizerIsPermutation(AfterTail(b, t), |a|);
  }

  lemma LanesDecideKey(a: seq<Byte>, b: seq<Byte>)
    requires |a| == |b| < 16
    requires ScrambledLow(a) == ScrambledLow(b) && ScrambledHigh(a) == ScrambledHigh(b)
    ensures a == b
  {
    hide Run, Unrun, LowOps, HighOps, LittleEndian, Fits, IsWord;
    RunUndone(LowOps(), LoadLane(LowLane(a)), 64);
    RunUndone(LowOps(), LoadLane(LowLane(b)), 64);
    RunUndone(HighOps(), LoadLane(HighLane(a)), 64);
    RunUndone(HighOps(), LoadLane(HighLane(b)), 64);
    LittleEndianIsInjective(LowLane(a), LowLane(b));
    LittleEndianIsInjective(HighLane(a), HighLane(b));
    assert a == LowLane(a) + HighLane(a);
    assert b == LowLane(b) + HighLane(b);
  }

  /** For each length up to 15 and each seed, the 128-bit hash has no collision. */
  lemma ShortKeysNeverCollide(a: seq<Byte>, b: seq<Byte>, seed: nat)
    requires |a| == |b| < 16 && IsWord(seed, 32)
    ensures Hash128Of(a, seed) == Hash128Of(b, seed) <==> a == b
  {
    hide ScrambledLow, ScrambledHigh, Xor, Finalizer128, RunPair;
    if Hash128Of(a, seed) == Hash128Of(b, seed) {
      Hash128DecidesTail(a, seed, b, seed);
      XorLeftInjective(seed, ScrambledLow(a), ScrambledLow(b));
      XorLeftInjective(seed, ScrambledHigh(a), ScrambledHigh(b));
      LanesDecideKey(a, b);
    }
  }

  /** For each key, different seeds give different hashes. */
  lemma SeedsNeverCollide(key: seq<Byte>, s: nat, t: nat)
    requires |key| < 16 && IsWord(s, 32) && IsWord(t, 32)
    ensures Hash128Of(key, s) == Hash128Of(key, t) <==> s == t
  {
    hide ScrambledLow, ScrambledHigh, Xor, Finalizer128, RunPair;
    if Hash128Of(key, s) == Hash128Of(key, t) {
      Hash128DecidesTail(key, s, key, t);
      XorInverse(s, ScrambledLow(key));
      XorInverse(t, ScrambledLow(key));
    }
  }

  /** Up to length 8 the second lane is empty, so the hash decides the seed as well as the key. */
  lemma TinyKeysAndSeedsNeverCollide(a: seq<Byte>, s: nat, b: seq<Byte>, t: nat)
    requires |a| == |b| <= 8 && IsWord(s, 32) && IsWord(t, 32)
    ensures Hash128Of(a, s) == Hash128Of(b, t) <==> a == b && s == t
  {
    hide ScrambledLow, ScrambledHigh, Xor, Finalizer128, RunPair;
    if Hash128Of(a, s) == Hash128Of(b, t) {
      Hash128DecidesTail(a, s, b, t);
      ScrambledNothing(a);
      ScrambledNothing(b);
      XorZero(s);
      XorZero(t);
      ShortKeysNeverCollide(a, b, s);
    }
  }
}
