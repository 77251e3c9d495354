/** MurmurHash3 once more, in plain arithmetic with the constants written out, and some of its
    values: what the programs of HashMurmur3 compute is this. */
module HashReference {
  import opened Arithmetic
  import opened HashMurmur3
  import opened MachineWords
  import opened WordPrograms

  // ------------------------------------------------------------------ 32 bits

  function Scramble(word: nat): (k: nat) {
    var k := word * 0xcc9e2d51 % 0x1_0000_0000;
    var k := k % 0x2_0000 * 0x8000 + k / 0x2_0000;
    k * 0x1b873593 % 0x1_0000_0000
  }

  function Mix(h: nat): nat {
    var h := h % 0x8_0000 * 0x2000 + h / 0x8_0000;
    (h * 5 + 0xe6546b64) % 0x1_0000_0000
  }

  function Finish(h: nat): nat {
    var h := Xor(h, h / 0x1_0000);
    var h := h * 0x85ebca6b % 0x1_0000_0000;
    var h := Xor(h, h / 0x2000);
    var h := h * 0xc2b2ae35 % 0x1_0000_0000;
    Xor(h, h / 0x1_0000)
  }

  /** The bytes p[0], p[1], ... of a word, the lowest first. */
  function Joined(b0: nat, b1: nat, b2: nat, b3: nat): nat {
    b0 + 0x100 * b1 + 0x1_0000 * b2 + 0x100_0000 * b3
  }

  function WordAt(key: seq<Byte>, i: nat): nat
    requires i + 4 <= |key|
  {
    Joined(key[i], key[i + 1], key[i + 2], key[i + 3])
  }

  function Blocks(key: seq<Byte>, n: nat, seed: nat): nat
    requires 4 * n <= |key|
  {
    if n == 0 then seed else Mix(Xor(Blocks(key, n - 1, seed), Scramble(WordAt(key, 4 * n - 4))))
  }

  /** The tail from byte i on. */
  function TailAt(key: seq<Byte>, i: nat): nat
    requires i <= |key| <= i + 3
  {
    if |key| == i then 0
    else if |key| == i + 1 then Joined(key[i], 0, 0, 0)
    else if |key| == i + 2 then Joined(key[i], key[i + 1], 0, 0)
    else Joined(key[i], key[i + 1], key[i + 2], 0)
  }

  function Murmur32(key: seq<Byte>, seed: nat): nat {
    var n := |key| / 4;
    var h := Blocks(key, n, seed);
    var h := if |key| == 4 * n then h else Xor(h, Scramble(TailAt(key, 4 * n)));
    Finish(Xor(h, |key|))
  }

  lemma WordIsPlain(key: seq<Byte>, i: nat)
    requires 4 * i + 4 <= |key|
    ensures LoadBlock(key, i) == WordAt(key, 4 * i)
  {
    var b := key[4 * i..4 * i + 4];
    assert b == [b[0]] + [b[1]] + [b[2]] + [b[3]];
    JoinedIsLittleEndian(b);
  }

  lemma JoinedIsLittleEndian(b: seq<Byte>)
    requires 1 <= |b| <= 4
    ensures LittleEndian(b) == Joined(b[0], if |b| > 1 then b[1] else 0, if |b| > 2 then b[2] else 0,
                                      if |b| > 3 then b[3] else 0)
  {
    assert LittleEndian(b) == b[0] + 256 * LittleEndian(b[1..]);
    if |b| > 1 {
      var c := b[1..];
      assert LittleEndian(c) == b[1] + 256 * LittleEndian(c[1..]);
      if |b| > 2 {
        var d := c[1..];
        assert LittleEndian(d) == b[2] + 256 * LittleEndian(d[1..]);
        if |b| > 3 {
          var e := d[1..];
          assert LittleEndian(e) == b[3] + 256 * LittleEndian(e[1..]);
        }
      }
    }
  }

  lemma TailIsPlain(key: seq<Byte>)
    ensures LoadTail(key) == TailAt(key, |key| / 4 * 4)
  {
    var b := TailOf(key);
    if b != [] {
      JoinedIsLittleEndian(b);
    }
  }

  lemma Pow2Of32()
    ensures Pow2(13) == 0x2000 && Pow2(15) == 0x8000 && Pow2(16) == 0x1_0000
    ensures Pow2(17) == 0x2_0000 && Pow2(19) == 0x8_0000 && Pow2(32) == 0x1_0000_0000
  {
    Pow2Literals();
    Pow2Sum(16, 1);
    Pow2Sum(16, 3);
  }

  lemma ScrambleIsPlain(word: nat)
    requires IsWord(word, 32)
    ensures Run(ScrambleOps(), word, 32) == Scramble(word)
  {
    Pow2Of32();
    hide Low, Shr, Pow2, Run;
    RunThree(Multiply(C1), Rotate(15), Multiply(C2), word, 32);
    var k1 := Times(word, C1, 32);
    BitsAreDivMod(word * C1, 32);
    BitsAreDivMod(k1, 17);
    var k2 := Rotl(k1, 15, 32);
    BitsAreDivMod(k2 * C2, 32);
  }

  lemma PlusOnce(a: nat, c: nat, m: nat)
    requires m > 0
    ensures (a % m + c) % m == (a + c) % m
  {
    var q := a / m;
    assert a + c == q * m + (a % m + c);
    DivModUnique(a + c, q + (a % m + c) / m, (a % m + c) % m, m) by {
      var x := a % m + c;
      assert x == x / m * m + x % m;
      Distributes(q, x / m, m);
    }
  }

  lemma TimesFivePlus(r: nat)
    ensures Plus(Times(r, 5, 32), C3, 32) == (r * 5 + C3) % 0x1_0000_0000
  {
    Pow2Of32();
    hide Low, Pow2;
    BitsAreDivMod(r * 5, 32);
    BitsAreDivMod(Times(r, 5, 32) + C3, 32);
    PlusOnce(r * 5, C3, 0x1_0000_0000);
  }

  lemma RotateIsPlain(h: nat)
    ensures Rotl(h, 13, 32) == h % 0x8_0000 * 0x2000 + h / 0x8_0000
  {
    Pow2Of32();
    hide Low, Shr, Pow2;
    BitsAreDivMod(h, 19);
  }

  lemma MixIsPlain(h: nat)
    requires IsWord(h, 32)
    ensures Run(MixOps(), h, 32) == Mix(h)
  {
    hide Rotl, Times, Plus, Run, MixOps;
    RunMix(h);
    RotateIsPlain(h);
    TimesFivePlus(Rotl(h, 13, 32));
  }

  lemma FinishIsPlain(h: nat, len: nat)
    requires IsWord(h, 32) && len < INT_LIMIT
    ensures Run(FinishOps(len), h, 32) == Finish(Xor(h, len))
  {
    Pow2Of32();
    var ops := FinishOps(len);
    RunJoined(ops[..1], ops[1..], h, 32);
    RunOne(XorIn(len), h, 32);
    var h0 := Xor(h, len);
    RunFive(ShiftIn(16), Multiply(C4), ShiftIn(13), Multiply(C5), ShiftIn(16), h0, 32);
    hide Low, Shr, Pow2, Run, Xor;
    BitsAreDivMod(h0, 16);
    var h1 := XorShift(h0, 16);
    BitsAreDivMod(h1 * C4, 32);
    var h2 := Times(h1, C4, 32);
    BitsAreDivMod(h2, 13);
    var h3 := XorShift(h2, 13);
    BitsAreDivMod(h3 * C5, 32);
    var h4 := Times(h3, C5, 32);
    BitsAreDivMod(h4, 16);
  }

  lemma {:induction false} BlocksArePlain(key: seq<Byte>, n: nat, seed: nat)
    requires 4 * n <= |key| && IsWord(seed, 32)
    ensures Run(BlockOps(key, n), seed, 32) == Blocks(key, n, seed)
  {
    hide Run, ScrambleOps, MixOps, LoadBlock, WordAt, Scramble, Mix, BlockOps, Xor;
    if n == 0 {
      NoBlocks(key);
      NoStep(seed);
    } else {
      BlocksArePlain(key, n - 1, seed);
      RunOneMoreBlock(key, n - 1, seed);
      var h, k := Run(BlockOps(key, n - 1), seed, 32), LoadBlock(key, n - 1);
      WordIsPlain(key, n - 1);
      ScrambleIsPlain(k);
      RunJoined([Scrambled(k)], MixOps(), h, 32);
      RunOne(Scrambled(k), h, 32);
      MixIsPlain(Run([Scrambled(k)], h, 32));
    }
  }

  /** For every key and seed. */
  lemma Hash32IsMurmur32(key: seq<Byte>, seed: nat)
    requires |key| < 0x8000_0000 && seed < 0x1_0000_0000
    ensures IsWord(seed, 32)
    ensures Hash32Of(key, seed) == Murmur32(key, seed)
  {
    Pow2Literals();
    hide Run, ScrambleOps, BlockOps, FinishOps, Blocks, Scramble, Finish, Xor, LoadTail, TailAt;
    var n, k := |key| / 4, LoadTail(key);
    RunParts(key, seed);
    BlocksArePlain(key, n, seed);
    var h := Run(BlockOps(key, n), seed, 32);
    TailIsPlain(key);
    ScrambleIsPlain(k);
    RunOne(Scrambled(k), h, 32);
    FinishIsPlain(Run([Scrambled(k)], h, 32), |key|);
    if |key| == 4 * n {
      EmptyTail(h, key);
    }
  }

  // ------------------------------------------------------------------ 128 bits, short keys

  const TWO_TO_THE_64: nat := 0x1_0000_0000_0000_0000

  function ScrambleLow(word: nat): nat {
    var k := word * 0x87c37b91114253d5 % TWO_TO_THE_64;
    var k := k % 0x2_0000_0000 * 0x8000_0000 + k / 0x2_0000_0000;
    k * 0x4cf5ad432745937f % TWO_TO_THE_64
  }

  function ScrambleHigh(word: nat): nat {
    var k := word * 0x4cf5ad432745937f % TWO_TO_THE_64;
    var k := k % 0x8000_0000 * 0x2_0000_0000 + k / 0x8000_0000;
    k * 0x87c37b91114253d5 % TWO_TO_THE_64
  }

  function Spread(h: nat): nat {
    var h := Xor(h, h / 0x2_0000_0000);
    var h := h * 0xff51afd7ed558ccd % TWO_TO_THE_64;
    var h := Xor(h, h / 0x2_0000_0000);
    var h := h * 0xc4ceb9fe1a85ec53 % TWO_TO_THE_64;
    Xor(h, h / 0x2_0000_0000)
  }

  function AddCrosswise(a: nat, b: nat): Pair {
    var sum := (a + b) % TWO_TO_THE_64;
    Pair(sum, (b + sum) % TWO_TO_THE_64)
  }

  function LowValue(key: seq<Byte>): nat {
    LittleEndian(if |key| <= 8 then key else key[..8])
  }

  function HighValue(key: seq<Byte>): nat {
    LittleEndian(if |key| <= 8 then [] else key[8..])
  }

  function Murmur128(key: seq<Byte>, seed: nat): Pair
    requires |key| < 16
  {
    var h1 := if |key| == 0 then seed else Xor(seed, ScrambleLow(LowValue(key)));
    var h2 := if |key| <= 8 then seed else Xor(seed, ScrambleHigh(HighValue(key)));
    var p := AddCrosswise(Xor(h1, |key|), Xor(h2, |key|));
    AddCrosswise(Spread(p.h1), Spread(p.h2))
  }

  lemma Pow2Of64()
    ensures Pow2(31) == 0x8000_0000 && Pow2(33) == 0x2_0000_0000 && Pow2(64) == TWO_TO_THE_64
  {
    Pow2Literals();
    hide Pow2;
    Pow2OneMore(32);
    Pow2OneMore(31);
  }

  lemma Pow2OneMore(n: nat)
    ensures Pow2(n + 1) == 2 * Pow2(n)
  {}

  lemma TimesIsPlain(x: nat, c: nat)
    ensures Times(x, c, 64) == x * c % TWO_TO_THE_64
  {
    Pow2Of64();
    hide Low, Shr, Pow2;
    BitsAreDivMod(x * c, 64);
  }

  lemma PlusIsPlain(x: nat, c: nat)
    ensures Plus(x, c, 64) == (x + c) % TWO_TO_THE_64
  {
    Pow2Of64();
    hide Low, Shr, Pow2;
    BitsAreDivMod(x + c, 64);
  }

  lemma RotatesArePlain(x: nat)
    ensures Rotl(x, 31, 64) == x % 0x2_0000_0000 * 0x8000_0000 + x / 0x2_0000_0000
    ensures Rotl(x, 33, 64) == x % 0x8000_0000 * 0x2_0000_0000 + x / 0x8000_0000
    ensures XorShift(x, 33) == Xor(x, x / 0x2_0000_0000)
  {
    Pow2Of64();
    hide Low, Shr, Pow2, Xor;
    BitsAreDivMod(x, 33);
    BitsAreDivMod(x, 31);
  }

  lemma LowIsPlain(k: nat)
    requires IsWord(k, 64)
    ensures Run(LowOps(), k, 64) == ScrambleLow(k)
  {
    hide Times, Rotl, Run, IsWord;
    RunThree(Multiply(WIDE_C1), Rotate(31), Multiply(WIDE_C2), k, 64);
    TimesIsPlain(k, WIDE_C1);
    RotatesArePlain(Times(k, WIDE_C1, 64));
    TimesIsPlain(Rotl(Times(k, WIDE_C1, 64), 31, 64), WIDE_C2);
  }

  lemma HighIsPlain(k: nat)
    requires IsWord(k, 64)
    ensures Run(HighOps(), k, 64) == ScrambleHigh(k)
  {
    hide Times, Rotl, Run, IsWord;
    RunThree(Multiply(WIDE_C2), Rotate(33), Multiply(WIDE_C1), k, 64);
    TimesIsPlain(k, WIDE_C2);
    RotatesArePlain(Times(k, WIDE_C2, 64));
    TimesIsPlain(Rotl(Times(k, WIDE_C2, 64), 33, 64), WIDE_C1);
  }

  lemma LanesArePlain(key: seq<Byte>)
    requires |key| < 16
    ensures ScrambledLow(key) == ScrambleLow(LowValue(key))
    ensures ScrambledHigh(key) == ScrambleHigh(HighValue(key))
  {
    hide Run, LowOps, HighOps, ScrambleLow, ScrambleHigh, LittleEndian, IsWord;
    LowIsPlain(LoadLane(LowLane(key)));
    HighIsPlain(LoadLane(HighLane(key)));
  }

  lemma SpreadIsPlain(h: nat)
    requires IsWord(h, 64)
    ensures Run(Avalanche64(), h, 64) == Spread(h)
  {
    hide Times, Run, XorShift, Xor, IsWord;
    RunFive(ShiftIn(33), Multiply(WIDE_C5), ShiftIn(33), Multiply(WIDE_C6), ShiftIn(33), h, 64);
    RotatesArePlain(h);
    var h1 := XorShift(h, 33);
    TimesIsPlain(h1, WIDE_C5);
    var h2 := Times(h1, WIDE_C5, 64);
    RotatesArePlain(h2);
    var h3 := XorShift(h2, 33);
    TimesIsPlain(h3, WIDE_C6);
    RotatesArePlain(Times(h3, WIDE_C6, 64));
  }

  lemma OnBothIsPlain(ops: seq<Op>, p: Pair)
    requires AllFit(ops, 64) && AreWords(p, 64)
    ensures AllPairFit(OnBoth(ops), 64)
    ensures RunPair(OnBoth(ops), p, 64) == AddCrosswise(Run(ops, p.h1, 64), Run(ops, p.h2, 64))
  {
    hide Run, RunPair, OnBoth, Plus, AllFit, IsWord;
    RunOnBoth(ops, p, 64);
    var a, b := Run(ops, p.h1, 64), Run(ops, p.h2, 64);
    PlusIsPlain(a, b);
    PlusIsPlain(b, Plus(a, b, 64));
  }

  lemma FinalizerIsPlain(p: Pair, len: nat)
    requires AreWords(p, 64) && len < 16
    ensures var q := AddCrosswise(Xor(p.h1, len), Xor(p.h2, len));
            RunPair(Finalizer128(len), p, 64) == AddCrosswise(Spread(q.h1), Spread(q.h2))
  {
    LengthFits(len);
    hide Run, RunPair, Xor, Avalanche64, OnBoth, Fits, Spread, AddCrosswise, IsWord;
    OnBothIsPlain([XorIn(len)], p);
    RunOne(XorIn(len), p.h1, 64);
    RunOne(XorIn(len), p.h2, 64);
    var q := RunPair(OnBoth([XorIn(len)]), p, 64);
    OnBothIsPlain(Avalanche64(), q);
    RunPairJoined(OnBoth([XorIn(len)]), OnBoth(Avalanche64()), p, 64);
    SpreadIsPlain(q.h1);
    SpreadIsPlain(q.h2);
  }

  lemma TailIsPlain128(key: seq<Byte>, seed: nat)
    requires |key| < 16 && IsWord(seed, 32)
    ensures AfterTail(key, seed)
         == Pair(if |key| == 0 then seed else Xor(seed, ScrambleLow(LowValue(key))),
                 if |key| <= 8 then seed else Xor(seed, ScrambleHigh(HighValue(key))))
  {
    hide Xor, IsWord, ScrambledLow, ScrambledHigh, ScrambleLow, ScrambleHigh, LowValue, HighValue;
    LanesArePlain(key);
    ScrambledNothing(key);
    XorZero(seed);
  }

  /** For every key shorter than a block and every seed. */
  lemma Hash128IsMurmur128(key: seq<Byte>, seed: nat)
    requires |key| < 16 && IsWord(seed, 32)
    ensures Hash128Of(key, seed) == Murmur128(key, seed)
  {
    hide RunPair, Finalizer128, Xor, IsWord, Spread, ScrambleLow, ScrambleHigh, AfterTail, LowValue, HighValue;
    hide AddCrosswise;
    TailIsPlain128(key, seed);
    FinalizerIsPlain(AfterTail(key, seed), |key|);
  }

  // ------------------------------------------------------------------ values

  function Bit(p: nat, q: nat): nat { if p % 2 == q % 2 then 0 else 1 }

  /** Exclusive or of two hexadecimal digits, the highest bit first. */
  function Digit(p: nat, q: nat): nat {
    var p1, q1 := Below(p, 8), Below(q, 8);
    var p2, q2 := Below(p1, 4), Below(q1, 4);
    var p3, q3 := Below(p2, 2), Below(q2, 2);
    8 * OneOf(p >= 8, q >= 8) + 4 * OneOf(p1 >= 4, q1 >= 4) + 2 * OneOf(p2 >= 2, q2 >= 2) + OneOf(p3 >= 1, q3 >= 1)
  }

  function Below(p: nat, w: nat): nat {
    if p >= w then p - w else p
  }

  function OneOf(b: bool, c: bool): nat {
    if b == c then 0 else 1
  }

  lemma DigitBits(p: nat, q: nat)
    requires p < 16 && q < 16
    ensures Digit(p, q) == 8 * Bit(p / 8, q / 8) + 4 * Bit(p / 4, q / 4) + 2 * Bit(p / 2, q / 2) + Bit(p, q)
  {
    BitsOfDigit(p);
    BitsOfDigit(q);
  }

  lemma BitsOfDigit(p: nat)
    requires p < 16
    ensures var p1 := Below(p, 8); var p2 := Below(p1, 4); var p3 := Below(p2, 2);
            && (p / 8 % 2 == if p >= 8 then 1 else 0) && (p / 4 % 2 == if p1 >= 4 then 1 else 0)
            && (p / 2 % 2 == if p2 >= 2 then 1 else 0) && (p % 2 == if p3 >= 1 then 1 else 0)
  {}

  lemma XorHalves(a: nat, b: nat)
    ensures Xor(a, b) == 2 * Xor(a / 2, b / 2) + Bit(a, b)
  {
    if a == 0 && b == 0 { assert Xor(0, 0) == 0; } else { XorParts(a, b); }
  }

  lemma XorBit(a: nat, b: nat, p: nat, q: nat)
    ensures Xor(2 * a + p, 2 * b + q) == 2 * Xor(a + p / 2, b + q / 2) + Bit(p, q)
  {
    XorHalves(2 * a + p, 2 * b + q);
    hide Xor;
    assert (2 * a + p) / 2 == a + p / 2 && (2 * b + q) / 2 == b + q / 2;
  }

  lemma XorFourBits(a: nat, b: nat, p: nat, q: nat)
    requires p < 16 && q < 16
    ensures Xor(16 * a + p, 16 * b + q)
         == 16 * Xor(a, b) + 8 * Bit(p / 8, q / 8) + 4 * Bit(p / 4, q / 4) + 2 * Bit(p / 2, q / 2) + Bit(p, q)
  {
    hide Xor, Bit;
    XorBit(8 * a, 8 * b, p, q);
    XorBit(4 * a, 4 * b, p / 2, q / 2);
    XorBit(2 * a, 2 * b, p / 4, q / 4);
    XorBit(a, b, p / 8, q / 8);
  }

  lemma XorDigit(a: nat, b: nat, p: nat, q: nat)
    requires p < 16 && q < 16
    ensures Xor(16 * a + p, 16 * b + q) == 16 * Xor(a, b) + Digit(p, q)
  {
    hide Xor, Bit, Digit;
    XorFourBits(a, b, p, q);
    DigitBits(p, q);
  }

  /** Four hexadecimal digits behind the number x. */
  function Four(x: nat, d: nat, c: nat, b: nat, a: nat): nat {
    16 * (16 * (16 * (16 * x + d) + c) + b) + a
  }

  lemma XorFour(x: nat, y: nat, d: nat, c: nat, b: nat, a: nat, d': nat, c': nat, b': nat, a': nat)
    requires a < 16 && b < 16 && c < 16 && d < 16 && a' < 16 && b' < 16 && c' < 16 && d' < 16
    ensures Xor(Four(x, d, c, b, a), Four(y, d', c', b', a'))
         == Four(Xor(x, y), Digit(d, d'), Digit(c, c'), Digit(b, b'), Digit(a, a'))
  {
    hide Xor, Digit;
    var x3, y3 := 16 * x + d, 16 * y + d';
    var x2, y2 := 16 * x3 + c, 16 * y3 + c';
    var x1, y1 := 16 * x2 + b, 16 * y2 + b';
    XorDigit(x, y, d, d');
    XorDigit(x3, y3, c, c');
    XorDigit(x2, y2, b, b');
    XorDigit(x1, y1, a, a');
  }

  lemma DigitsOfTest()
    ensures Digit(0, 7) == 7 && Digit(1, 8) == 9 && Digit(5, 0) == 5 && Digit(5, 8) == 13 && Digit(6, 11) == 13
    ensures Digit(7, 0) == 7 && Digit(7, 6) == 1 && Digit(7, 9) == 14 && Digit(8, 10) == 2 && Digit(8, 11) == 3
    ensures Digit(9, 0) == 9 && Digit(9, 7) == 14 && Digit(9, 12) == 5 && Digit(11, 4) == 15 && Digit(13, 0) == 13
    ensures Digit(13, 14) == 3 && Digit(14, 6) == 8 && Digit(15, 0) == 15 && Digit(15, 5) == 10
  {}

  lemma XorsOfTest()
    ensures Xor(0x0, 0x465f_51e8) == 0x465f_51e8
    ensures Xor(0x7985_975b, 0x4) == 0x7985_975f
    ensures Xor(0x7985_975f, 0x7985) == 0x7985_eeda
    ensures Xor(0xfd90_d91e, 0x7_ec86) == 0xfd97_3598
    ensures Xor(0xba6b_6878, 0xba6b) == 0xba6b_d213
  {
    DigitsOfTest();
    hide Xor, Digit;
    XorCommutes(0, 0x465f_51e8); XorZero(0x465f_51e8);
    XorFour(0x7985, 0x0, 9, 7, 5, 11, 0, 0, 0, 4); XorZero(0x7985);
    XorFour(0x7985, 0x0, 9, 7, 5, 15, 7, 9, 8, 5); XorZero(0x7985);
    XorFour(0xfd90, 0x7, 13, 9, 1, 14, 14, 12, 8, 6); XorFour(0x0, 0x0, 15, 13, 9, 0, 0, 0, 0, 7); XorZero(0x0);
    XorFour(0xba6b, 0x0, 6, 8, 7, 8, 11, 10, 6, 11); XorZero(0xba6b);
  }

  lemma StepsOfTest()
    ensures Scramble(0x7473_6574) == 0x465f_51e8 && Mix(0x465f_51e8) == 0x7985_975b
  {
    assert 0x7473_6574 * 0xcc9e2d51 % 0x1_0000_0000 == 0x2ef0_7db4;
    assert 0x2ef0_7db4 % 0x2_0000 == 0x7db4 && 0x2ef0_7db4 / 0x2_0000 == 0x1778;
    assert 0x3eda_1778 * 0x1b873593 % 0x1_0000_0000 == 0x465f_51e8;
    assert 0x465f_51e8 % 0x8_0000 == 0x7_51e8 && 0x465f_51e8 / 0x8_0000 == 0x8cb;
  }

  lemma FinishOfTest()
    ensures Finish(0x7985_975f) == 0xba6b_d213
  {
    XorsOfTest();
    hide Xor;
    assert 0x7985_975f / 0x1_0000 == 0x7985 && 0xfd90_d91e / 0x2000 == 0x7_ec86 && 0xba6b_6878 / 0x1_0000 == 0xba6b;
    assert 0x7985_eeda * 0x85ebca6b % 0x1_0000_0000 == 0xfd90_d91e;
    assert 0xfd97_3598 * 0xc2b2ae35 % 0x1_0000_0000 == 0xba6b_6878;
  }

  /** The key "test". */
  lemma MurmurOfTest()
    ensures Murmur32([116, 101, 115, 116], 0) == 0xba6b_d213
  {
    XorsOfTest();
    StepsOfTest();
    FinishOfTest();
    hide Xor, Scramble, Mix, Finish;
    var key: seq<Byte> := [116, 101, 115, 116];
    assert WordAt(key, 0) == 0x7473_6574 && Blocks(key, 0, 0) == 0;
  }

  lemma DigitsOfAbc()
    ensures Digit(0, 3) == 3 && Digit(0, 11) == 11 && Digit(2, 11) == 9 && Digit(2, 13) == 15 && Digit(3, 3) == 0
    ensures Digit(4, 0) == 4 && Digit(4, 4) == 0 && Digit(7, 0) == 7 && Digit(7, 3) == 4 && Digit(7, 6) == 1
    ensures Digit(7, 13) == 10 && Digit(8, 14) == 6 && Digit(9, 0) == 9 && Digit(9, 10) == 3 && Digit(11, 0) == 11
    ensures Digit(11, 3) == 8 && Digit(12, 0) == 12 && Digit(13, 0) == 13 && Digit(13, 2) == 15 && Digit(13, 7) == 10
  {}

  lemma XorsOfAbc()
    ensures Xor(0x0, 0xa734_9db7) == 0xa734_9db7
    ensures Xor(0xa734_9db7, 0x3) == 0xa734_9db4
    ensures Xor(0xa734_9db4, 0xa734) == 0xa734_3a80
    ensures Xor(0x4c7d_7380, 0x2_63eb) == 0x4c7f_106b
    ensures Xor(0xb3dd_2027, 0xb3dd) == 0xb3dd_93fa
  {
    DigitsOfAbc();
    hide Xor, Digit;
    XorCommutes(0, 0xa734_9db7); XorZero(0xa734_9db7);
    XorFour(0xa734, 0x0, 9, 13, 11, 7, 0, 0, 0, 3); XorZero(0xa734);
    XorFour(0xa734, 0x0, 9, 13, 11, 4, 10, 7, 3, 4); XorZero(0xa734);
    XorFour(0x4c7d, 0x2, 7, 3, 8, 0, 6, 3, 14, 11); XorFour(0x0, 0x0, 4, 12, 7, 13, 0, 0, 0, 2); XorZero(0x0);
    XorFour(0xb3dd, 0x0, 2, 0, 2, 7, 11, 3, 13, 13); XorZero(0xb3dd);
  }

  lemma StepsOfAbc()
    ensures Scramble(0x63_6261) == 0xa734_9db7
  {
    assert 0x63_6261 * 0xcc9e2d51 % 0x1_0000_0000 == 0x9b9b_2db1;
    assert 0x9b9b_2db1 % 0x2_0000 == 0x1_2db1 && 0x9b9b_2db1 / 0x2_0000 == 0x4dcd;
    assert 0x96d8_cdcd * 0x1b873593 % 0x1_0000_0000 == 0xa734_9db7;
  }

  lemma FinishOfAbc()
    ensures Finish(0xa734_9db4) == 0xb3dd_93fa
  {
    XorsOfAbc();
    hide Xor;
    assert 0xa734_9db4 / 0x1_0000 == 0xa734 && 0x4c7d_7380 / 0x2000 == 0x2_63eb && 0xb3dd_2027 / 0x1_0000 == 0xb3dd;
    assert 0xa734_3a80 * 0x85ebca6b % 0x1_0000_0000 == 0x4c7d_7380;
    assert 0x4c7f_106b * 0xc2b2ae35 % 0x1_0000_0000 == 0xb3dd_2027;
  }

  /** The key "abc". */
  lemma MurmurOfAbc()
    ensures Murmur32([97, 98, 99], 0) == 0xb3dd_93fa
  {
    XorsOfAbc();
    StepsOfAbc();
    FinishOfAbc();
    hide Xor, Scramble, Mix, Finish;
    var key: seq<Byte> := [97, 98, 99];
    assert TailAt(key, 0) == 0x63_6261 && Blocks(key, 0, 0) == 0;
  }

  lemma DigitsOfHello()
    ensures Digit(0, 0) == 0 && Digit(0, 7) == 7 && Digit(0, 9) == 9 && Digit(1, 0) == 1 && Digit(1, 7) == 6
    ensures Digit(1, 8) == 9 && Digit(1, 9) == 8 && Digit(1, 12) == 13 && Digit(2, 1) == 3 && Digit(2, 2) == 0
    ensures Digit(4, 4) == 0 && Digit(4, 5) == 1 && Digit(4, 9) == 13 && Digit(4, 10) == 14 && Digit(4, 13) == 9
    ensures Digit(4, 14) == 10 && Digit(5, 4) == 1 && Digit(5, 6) == 3 && Digit(5, 10) == 15 && Digit(5, 14) == 11
  {}

  lemma DigitsOfHelloNext()
    ensures Digit(5, 15) == 10 && Digit(6, 4) == 2 && Digit(7, 0) == 7 && Digit(7, 1) == 6 && Digit(7, 4) == 3
    ensures Digit(7, 5) == 2 && Digit(7, 6) == 1 && Digit(7, 15) == 8 && Digit(8, 4) == 12 && Digit(8, 12) == 4
    ensures Digit(9, 7) == 14 && Digit(12, 0) == 12 && Digit(12, 1) == 13 && Digit(12, 4) == 8 && Digit(12, 11) == 7
    ensures Digit(12, 14) == 2 && Digit(13, 2) == 15 && Digit(13, 10) == 7 && Digit(14, 4) == 10
  {}

  lemma XorsOfHello()
    ensures Xor(0x0, 0x8c3f_01c9_e775_11c7) == 0x8c3f_01c9_e775_11c7
    ensures Xor(0x8c3f_01c9_e775_11c7, 0x5) == 0x8c3f_01c9_e775_11c2
    ensures Xor(0x0, 0x5) == 0x5
    ensures Xor(0x8c3f_01c9_e775_11c7, 0x461f_80e4) == 0x8c3f_01c9_a16a_9123
    ensures Xor(0x389a_c4e1_2154_5d07, 0x1c4d_6270) == 0x389a_c4e1_3d19_3f77
    ensures Xor(0x3c92_befc_2484_4795, 0x1e49_5f7e) == 0x3c92_befc_3acd_18eb
    ensures Xor(0x8c3f_01c9_e775_11cc, 0x461f_80e4) == 0x8c3f_01c9_a16a_9128
    ensures Xor(0x3533_3418_c400_1d08, 0x1a99_9a0c) == 0x3533_3418_de99_8704
    ensures Xor(0x8f45_e8b7_4152_764c, 0x47a2_f45b) == 0x8f45_e8b7_06f0_8217
  {
    DigitsOfHello();
    DigitsOfHelloNext();
    hide Xor, Digit;
    XorCommutes(0, 0x8c3f_01c9_e775_11c7); XorZero(0x8c3f_01c9_e775_11c7);
    XorFour(0x8c3f_01c9_e775, 0x0, 1, 1, 12, 7, 0, 0, 0, 5); XorZero(0x8c3f_01c9_e775);
    XorCommutes(0, 0x5); XorZero(0x5);
    XorFour(0x8c3f_01c9_e775, 0x461f, 1, 1, 12, 7, 8, 0, 14, 4);
    XorFour(0x8c3f_01c9, 0x0, 14, 7, 7, 5, 4, 6, 1, 15); XorZero(0x8c3f_01c9);
    XorFour(0x389a_c4e1_2154, 0x1c4d, 5, 13, 0, 7, 6, 2, 7, 0); XorFour(0x389a_c4e1, 0x0, 2, 1, 5, 4, 1, 12, 4, 13);
    XorZero(0x389a_c4e1);
    XorFour(0x3c92_befc_2484, 0x1e49, 4, 7, 9, 5, 5, 15, 7, 14); XorFour(0x3c92_befc, 0x0, 2, 4, 8, 4, 1, 14, 4, 9);
    XorZero(0x3c92_befc);
    XorFour(0x8c3f_01c9_e775, 0x461f, 1, 1, 12, 12, 8, 0, 14, 4);
    XorFour(0x8c3f_01c9, 0x0, 14, 7, 7, 5, 4, 6, 1, 15); XorZero(0x8c3f_01c9);
    XorFour(0x3533_3418_c400, 0x1a99, 1, 13, 0, 8, 9, 10, 0, 12);
    XorFour(0x3533_3418, 0x0, 12, 4, 0, 0, 1, 10, 9, 9); XorZero(0x3533_3418);
    XorFour(0x8f45_e8b7_4152, 0x47a2, 7, 6, 4, 12, 15, 4, 5, 11);
    XorFour(0x8f45_e8b7, 0x0, 4, 1, 5, 2, 4, 7, 10, 2); XorZero(0x8f45_e8b7);
  }

  lemma StepsOfHello()
    ensures ScrambleLow(0x6f_6c6c_6568) == 0x8c3f_01c9_e775_11c7
  {
    assert 0x6f_6c6c_6568 * 0x87c37b91114253d5 % TWO_TO_THE_64 == 0x1768_0b72_67e1_1788;
    assert 0x1768_0b72_67e1_1788 % 0x2_0000_0000 == 0x67e1_1788 && 0x1768_0b72_67e1_1788 / 0x2_0000_0000 == 0xbb4_05b9;
    assert 0x33f0_8bc4_0bb4_05b9 * 0x4cf5ad432745937f % TWO_TO_THE_64 == 0x8c3f_01c9_e775_11c7;
  }

  lemma FirstLaneOfHello()
    ensures Spread(0x8c3f_01c9_e775_11c7) == 0x3c92_befc_3acd_18eb
  {
    XorsOfHello();
    hide Xor;
    assert 0x8c3f_01c9_e775_11c7 / 0x2_0000_0000 == 0x461f_80e4;
    assert 0x389a_c4e1_2154_5d07 / 0x2_0000_0000 == 0x1c4d_6270 && 0x3c92_befc_2484_4795 / 0x2_0000_0000 == 0x1e49_5f7e;
    assert 0x8c3f_01c9_a16a_9123 * 0xff51afd7ed558ccd % TWO_TO_THE_64 == 0x389a_c4e1_2154_5d07;
    assert 0x389a_c4e1_3d19_3f77 * 0xc4ceb9fe1a85ec53 % TWO_TO_THE_64 == 0x3c92_befc_2484_4795;
  }

  lemma SecondLaneOfHello()
    ensures Spread(0x8c3f_01c9_e775_11cc) == 0x8f45_e8b7_06f0_8217
  {
    XorsOfHello();
    hide Xor;
    assert 0x8c3f_01c9_e775_11cc / 0x2_0000_0000 == 0x461f_80e4;
    assert 0x3533_3418_c400_1d08 / 0x2_0000_0000 == 0x1a99_9a0c && 0x8f45_e8b7_4152_764c / 0x2_0000_0000 == 0x47a2_f45b;
    assert 0x8c3f_01c9_a16a_9128 * 0xff51afd7ed558ccd % TWO_TO_THE_64 == 0x3533_3418_c400_1d08;
    assert 0x3533_3418_de99_8704 * 0xc4ceb9fe1a85ec53 % TWO_TO_THE_64 == 0x8f45_e8b7_4152_764c;
  }

  /** The key "hello". */
  lemma MurmurOfHello()
    ensures Murmur128([104, 101, 108, 108, 111], 0) == Pair(0xcbd8_a7b3_41bd_9b02, 0x5b1e_906a_48ae_1d19)
  {
    XorsOfHello();
    StepsOfHello();
    FirstLaneOfHello();
    SecondLaneOfHello();
    hide Xor, ScrambleLow, Spread;
    var key: seq<Byte> := [104, 101, 108, 108, 111];
    assert LowValue(key) == 0x6f_6c6c_6568 by {
      JoinedIsLittleEndian(key[1..]);
      assert LittleEndian(key) == 104 + 256 * LittleEndian(key[1..]);
    }
  }

  /** The hashes of "test", "abc" and "hello". */
  lemma KnownValues()
    ensures Hash32Of([116, 101, 115, 116], 0) == 0xba6b_d213
    ensures Hash32Of([97, 98, 99], 0) == 0xb3dd_93fa
    ensures Hash128Of([104, 101, 108, 108, 111], 0) == Pair(0xcbd8_a7b3_41bd_9b02, 0x5b1e_906a_48ae_1d19)
  {
    hide Hash32Of, Hash128Of, Murmur32, Murmur128;
    var test: seq<Byte>, abc: seq<Byte> := [116, 101, 115, 116], [97, 98, 99];
    var hello: seq<Byte> := [104, 101, 108, 108, 111];
    Hash32IsMurmur32(test, 0);
    MurmurOfTest();
    Hash32IsMurmur32(abc, 0);
    MurmurOfAbc();
    Hash128IsMurmur128(hello, 0);
    MurmurOfHello();
  }
}
