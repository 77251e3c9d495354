/** Straight-line programs on machine words made of steps that can be undone. A hash is such a
    program, so both the seed and the operands that come from the key can be recovered from it. */
module WordPrograms {
  import opened MachineWords

  /** The C statements `h ^= k`, `h *= c`, `ROTL(&h, r)`, `h += c` and `h ^= h >> s`. */
  datatype Op = XorIn(k: nat) | Multiply(c: nat) | Rotate(r: nat) | Add(c: nat) | ShiftIn(s: nat)

  /** The operand is one for words of w bits with which the step can be undone. */
  predicate Fits(op: Op, w: nat) {
    w > 0 &&
    match op
    case XorIn(k) => IsWord(k, w)
    case Multiply(c) => c % 2 == 1
    case Rotate(r) => r <= w
    case Add(c) => IsWord(c, w)
    case ShiftIn(s) => s > 0
  }

  function Step(op: Op, x: nat, w: nat): (y: nat)
    requires Fits(op, w) && IsWord(x, w)
    ensures IsWord(y, w)
  {
    match op
    case XorIn(k) => XorIsWord(x, k, w); Xor(x, k)
    case Multiply(c) => Times(x, c, w)
    case Rotate(r) => RotlInverse(x, r, w); Rotl(x, r, w)
    case Add(c) => Plus(x, c, w)
    case ShiftIn(s) => XorShiftIsWord(x, s, w); XorShift(x, s)
  }

  function Unstep(op: Op, x: nat, w: nat): (y: nat)
    requires Fits(op, w) && IsWord(x, w)
    ensures IsWord(y, w)
  {
    match op
    case XorIn(k) => XorIsWord(x, k, w); Xor(x, k)
    case Multiply(c) => Times(x, OddInverse(c, w), w)
    case Rotate(r) => RotlInverse(x, w - r, w); Rotl(x, w - r, w)
    case Add(c) => Minus(x, c, w)
    case ShiftIn(s) => XorShiftOnto(x, s, w); UnXorShift(x, s, w)
  }

  lemma StepUndone(op: Op, x: nat, w: nat)
    requires Fits(op, w) && IsWord(x, w)
    ensures Unstep(op, Step(op, x, w), w) == x
    ensures Step(op, Unstep(op, x, w), w) == x
  {
    hide Xor, Times, Rotl, Plus, Minus, XorShift, UnXorShift, OddInverse, IsWord;
    match op
    case XorIn(k) => XorInverse(x, k);
    case Multiply(c) => TimesInverse(x, c, w);
    case Rotate(r) => RotlInverse(x, r, w); RotlInverse(x, w - r, w);
    case Add(c) => PlusInverse(x, c, w);
    case ShiftIn(s) => XorShiftInverse(x, s, w); XorShiftOnto(x, s, w);
  }

  predicate AllFit(ops: seq<Op>, w: nat) {
    forall i :: 0 <= i < |ops| ==> Fits(ops[i], w)
  }

  function Run(ops: seq<Op>, x: nat, w: nat): (y: nat)
    requires AllFit(ops, w) && IsWord(x, w)
    ensures IsWord(y, w)
  {
    if ops == [] then x else Run(ops[1..], Step(ops[0], x, w), w)
  }

  /** Undoes the steps, the last one first. */
  function Unrun(ops: seq<Op>, x: nat, w: nat): (y: nat)
    requires AllFit(ops, w) && IsWord(x, w)
    ensures IsWord(y, w)
  {
    if ops == [] then x else Unstep(ops[0], Unrun(ops[1..], x, w), w)
  }

  /** Every program permutes the words. */
  lemma {:induction false} RunUndone(ops: seq<Op>, x: nat, w: nat)
    requires AllFit(ops, w) && IsWord(x, w)
    ensures Unrun(ops, Run(ops, x, w), w) == x
    ensures Run(ops, Unrun(ops, x, w), w) == x
  {
    hide Fits, IsWord, Step, Unstep;
    if ops != [] {
      RunUndone(ops[1..], Step(ops[0], x, w), w);
      StepUndone(ops[0], x, w);
      RunUndone(ops[1..], x, w);
      StepUndone(ops[0], Unrun(ops[1..], x, w), w);
    }
  }

  lemma {:induction false} RunJoined(a: seq<Op>, b: seq<Op>, x: nat, w: nat)
    requires AllFit(a, w) && AllFit(b, w) && IsWord(x, w)
    ensures Run(a + b, x, w) == Run(b, Run(a, x, w), w)
  {
    hide Fits, IsWord, Step;
    if a == [] {
      assert a + b == b;
    } else {
      assert (a + b)[1..] == a[1..] + b;
      RunJoined(a[1..], b, Step(a[0], x, w), w);
    }
  }

  /** Programs that differ in one operand of `^=` never give the same result. */
  lemma OneOperandDecides(before: seq<Op>, j: nat, k: nat, after: seq<Op>, x: nat, w: nat)
    requires AllFit(before, w) && AllFit(after, w) && IsWord(x, w)
    requires Fits(XorIn(j), w) && Fits(XorIn(k), w)
    requires Run(before + [XorIn(j)] + after, x, w) == Run(before + [XorIn(k)] + after, x, w)
    ensures j == k
  {
    OneOperand(before, j, after, x, w);
    OneOperand(before, k, after, x, w);
    XorLeftInjective(Run(before, x, w), j, k);
  }

  lemma OneOperand(before: seq<Op>, k: nat, after: seq<Op>, x: nat, w: nat)
    requires AllFit(before, w) && AllFit(after, w) && IsWord(x, w) && Fits(XorIn(k), w)
    ensures Unrun(after, Run(before + [XorIn(k)] + after, x, w), w) == Xor(Run(before, x, w), k)
  {
    hide Fits, IsWord, Unrun, Xor;
    var y := Run(before, x, w);
    RunJoined(before + [XorIn(k)], after, x, w);
    RunJoined(before, [XorIn(k)], x, w);
    RunOne(XorIn(k), y, w);
    RunUndone(after, Step(XorIn(k), y, w), w);
  }

  lemma RunOne(a: Op, x: nat, w: nat)
    requires Fits(a, w) && IsWord(x, w)
    ensures Run([a], x, w) == Step(a, x, w)
  {
    hide Fits, Step;
    assert [a][1..] == [];
  }

  lemma RunThree(a: Op, b: Op, c: Op, x: nat, w: nat)
    requires Fits(a, w) && Fits(b, w) && Fits(c, w) && IsWord(x, w)
    ensures Run([a, b, c], x, w) == Step(c, Step(b, Step(a, x, w), w), w)
  {
    hide Fits, Step;
    assert [a, b, c][1..] == [b, c] && [b, c][1..] == [c];
    RunOne(c, Step(b, Step(a, x, w), w), w);
  }

  lemma RunFive(a: Op, b: Op, c: Op, d: Op, e: Op, x: nat, w: nat)
    requires Fits(a, w) && Fits(b, w) && Fits(c, w) && Fits(d, w) && Fits(e, w) && IsWord(x, w)
    ensures Run([a, b, c, d, e], x, w) == Step(e, Step(d, Step(c, Step(b, Step(a, x, w), w), w), w), w)
  {
    hide Fits, Step;
    assert [a, b, c, d, e][1..] == [b, c, d, e] && [b, c, d, e][1..] == [c, d, e];
    RunThree(c, d, e, Step(b, Step(a, x, w), w), w);
  }

  /** `k *= c; ROTL(&k, r); k *= d;` keeps zero. */
  lemma ScrambledZero(c: nat, r: nat, d: nat, w: nat)
    requires Fits(Multiply(c), w) && Fits(Rotate(r), w) && Fits(Multiply(d), w)
    ensures IsWord(0, w) && Run([Multiply(c), Rotate(r), Multiply(d)], 0, w) == 0
  {
    hide Run, Times, Rotl;
    RunThree(Multiply(c), Rotate(r), Multiply(d), 0, w);
    TimesZero(c, w);
    RotlZero(r, w);
    TimesZero(d, w);
  }

  // ------------------------------------------------------------------ programs on two words

  datatype Pair = Pair(h1: nat, h2: nat)

  predicate AreWords(p: Pair, w: nat) {
    IsWord(p.h1, w) && IsWord(p.h2, w)
  }

  /** A program on one of the words, or `h1 += h2`, or `h2 += h1`. */
  datatype PairOp = OnFirst(ops: seq<Op>) | OnSecond(ops: seq<Op>) | AddToFirst | AddToSecond

  predicate PairFits(op: PairOp, w: nat) {
    match op
    case OnFirst(ops) => AllFit(ops, w)
    case OnSecond(ops) => AllFit(ops, w)
    case _ => true
  }

  function PairStep(op: PairOp, p: Pair, w: nat): (q: Pair)
    requires PairFits(op, w) && AreWords(p, w)
    ensures AreWords(q, w)
  {
    match op
    case OnFirst(ops) => p.(h1 := Run(ops, p.h1, w))
    case OnSecond(ops) => p.(h2 := Run(ops, p.h2, w))
    case AddToFirst => p.(h1 := Plus(p.h1, p.h2, w))
    case AddToSecond => p.(h2 := Plus(p.h2, p.h1, w))
  }

  function PairUnstep(op: PairOp, p: Pair, w: nat): (q: Pair)
    requires PairFits(op, w) && AreWords(p, w)
    ensures AreWords(q, w)
  {
    match op
    case OnFirst(ops) => p.(h1 := Unrun(ops, p.h1, w))
    case OnSecond(ops) => p.(h2 := Unrun(ops, p.h2, w))
    case AddToFirst => p.(h1 := Minus(p.h1, p.h2, w))
    case AddToSecond => p.(h2 := Minus(p.h2, p.h1, w))
  }

  lemma PairStepUndone(op: PairOp, p: Pair, w: nat)
    requires PairFits(op, w) && AreWords(p, w)
    ensures PairUnstep(op, PairStep(op, p, w), w) == p
    ensures PairStep(op, PairUnstep(op, p, w), w) == p
  {
    hide IsWord, Run, Unrun, AllFit, Plus, Minus;
    match op
    case OnFirst(ops) => RunUndone(ops, p.h1, w);
    case OnSecond(ops) => RunUndone(ops, p.h2, w);
    case AddToFirst => PlusInverse(p.h1, p.h2, w);
    case AddToSecond => PlusInverse(p.h2, p.h1, w);
  }

  predicate AllPairFit(ops: seq<PairOp>, w: nat) {
    forall i :: 0 <= i < |ops| ==> PairFits(ops[i], w)
  }

  function RunPair(ops: seq<PairOp>, p: Pair, w: nat): (q: Pair)
    requires AllPairFit(ops, w) && AreWords(p, w)
    ensures AreWords(q, w)
  {
    if ops == [] then p else RunPair(ops[1..], PairStep(ops[0], p, w), w)
  }

  lemma {:induction false} RunPairJoined(a: seq<PairOp>, b: seq<PairOp>, p: Pair, w: nat)
    requires AllPairFit(a, w) && AllPairFit(b, w) && AreWords(p, w)
    ensures RunPair(a + b, p, w) == RunPair(b, RunPair(a, p, w), w)
  {
    hide PairFits, AreWords, PairStep;
    if a == [] {
      assert a + b == b;
    } else {
      assert (a + b)[1..] == a[1..] + b;
      RunPairJoined(a[1..], b, PairStep(a[0], p, w), w);
    }
  }

  /** The same on both words, and then `h1 += h2; h2 += h1;`. */
  function OnBoth(ops: seq<Op>): seq<PairOp> {
    [OnFirst(ops), OnSecond(ops), AddToFirst, AddToSecond]
  }

  lemma OnBothFits(ops: seq<Op>, w: nat)
    requires AllFit(ops, w)
    ensures AllPairFit(OnBoth(ops), w)
  {
    hide AllFit;
  }

  lemma RunOnBoth(ops: seq<Op>, p: Pair, w: nat)
    requires AllFit(ops, w) && AreWords(p, w)
    ensures AllPairFit(OnBoth(ops), w)
    ensures var h1 := Plus(Run(ops, p.h1, w), Run(ops, p.h2, w), w);
            RunPair(OnBoth(ops), p, w) == Pair(h1, Plus(Run(ops, p.h2, w), h1, w))
  {
    hide Run, Plus, AllFit, IsWord;
    var all := OnBoth(ops);
    assert all[1..] == [OnSecond(ops), AddToFirst, AddToSecond];
    assert all[1..][1..] == [AddToFirst, AddToSecond];
    assert all[1..][1..][1..] == [AddToSecond];
    assert all[1..][1..][1..][1..] == [];
    var p1 := PairStep(OnFirst(ops), p, w);
    var p2 := PairStep(OnSecond(ops), p1, w);
    var p3 := PairStep(AddToFirst, p2, w);
    assert [AddToFirst, AddToSecond][1..] == [AddToSecond] && [AddToSecond][1..] == [];
    assert RunPair([AddToSecond], p3, w) == PairStep(AddToSecond, p3, w);
    assert RunPair([AddToFirst, AddToSecond], p2, w) == PairStep(AddToSecond, p3, w);
  }

  function UnrunPair(ops: seq<PairOp>, p: Pair, w: nat): (q: Pair)
    requires AllPairFit(ops, w) && AreWords(p, w)
    ensures AreWords(q, w)
  {
    if ops == [] then p else PairUnstep(ops[0], UnrunPair(ops[1..], p, w), w)
  }

  /** Every program on two words permutes the pairs. */
  lemma {:induction false} RunPairUndone(ops: seq<PairOp>, p: Pair, w: nat)
    requires AllPairFit(ops, w) && AreWords(p, w)
    ensures UnrunPair(ops, RunPair(ops, p, w), w) == p
    ensures RunPair(ops, UnrunPair(ops, p, w), w) == p
  {
    hide PairFits, AreWords, PairStep, PairUnstep;
    if ops != [] {
      RunPairUndone(ops[1..], PairStep(ops[0], p, w), w);
      PairStepUndone(ops[0], p, w);
      RunPairUndone(ops[1..], p, w);
      PairStepUndone(ops[0], UnrunPair(ops[1..], p, w), w);
    }
  }
}
