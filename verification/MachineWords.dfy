/** Unsigned machine words of a fixed width, as the natural numbers below 2^w, with the operators
    the hash uses: exclusive or, logical right shift, left rotation, and addition and
    multiplication that wrap. The lemmas say which operators can be undone. */
module MachineWords {
  import opened Arithmetic

  function Pow2(n: nat): (p: nat)
    ensures p > 0
  {
    if n == 0 then 1 else 2 * Pow2(n - 1)
  }

  predicate IsWord(x: nat, w: nat) {
    x < Pow2(w)
  }

  lemma Pow2Literals()
    ensures Pow2(8) == 0x100 && Pow2(16) == 0x1_0000 && Pow2(24) == 0x100_0000
    ensures Pow2(32) == 0x1_0000_0000 && Pow2(64) == 0x1_0000_0000_0000_0000
  {
    assert Pow2(8) == 0x100;
    hide Pow2;
    Pow2Sum(8, 8);
    Pow2Sum(16, 8);
    Pow2Sum(16, 16);
    Pow2Sum(32, 32);
  }

  lemma {:induction false} Pow2Sum(m: nat, n: nat)
    ensures Pow2(m + n) == Pow2(m) * Pow2(n)
  {
    if m > 0 {
      Pow2Sum(m - 1, n);
    }
  }

  lemma WiderWord(x: nat, v: nat, w: nat)
    requires IsWord(x, v) && v <= w
    ensures IsWord(x, w)
  {
    Pow2Sum(v, w - v);
    AtLeastOnce(Pow2(w - v), Pow2(v));
  }

  // ------------------------------------------------------------------ low and high bits

  /** The w lowest bits, which is what a word of that width keeps. */
  function Low(x: nat, w: nat): (y: nat)
    ensures IsWord(y, w)
  {
    if w == 0 then 0 else 2 * Low(x / 2, w - 1) + x % 2
  }

  /** The other bits, moved down: `x >> w`. */
  function Shr(x: nat, w: nat): nat {
    if w == 0 then x else Shr(x / 2, w - 1)
  }

  lemma Doubles(a: int, p: int)
    ensures a * (2 * p) == 2 * (a * p)
  {}

  lemma {:induction false} LowAndHigh(x: nat, w: nat)
    ensures x == Shr(x, w) * Pow2(w) + Low(x, w)
  {
    if w > 0 {
      LowAndHigh(x / 2, w - 1);
      Doubles(Shr(x, w), Pow2(w - 1));
    }
  }

  lemma BitsAreDivMod(x: nat, w: nat)
    ensures Low(x, w) == x % Pow2(w)
    ensures Shr(x, w) == x / Pow2(w)
  {
    LowAndHigh(x, w);
    hide Low, Shr, Pow2;
    DivModUnique(x, Shr(x, w), Low(x, w), Pow2(w));
  }

  lemma BitsAreUnique(high: nat, low: nat, w: nat)
    requires IsWord(low, w)
    ensures Shr(high * Pow2(w) + low, w) == high && Low(high * Pow2(w) + low, w) == low
  {
    var x := high * Pow2(w) + low;
    BitsAreDivMod(x, w);
    hide Low, Shr, Pow2;
    DivModUnique(x, high, low, Pow2(w));
  }

  // ------------------------------------------------------------------ wrapping arithmetic

  function Times(x: nat, c: nat, w: nat): (y: nat)
    ensures IsWord(y, w)
  {
    Low(x * c, w)
  }

  /** The inverse of an odd number modulo 2^w, found one bit after the other. */
  function OddInverse(c: nat, w: nat): nat {
    if w == 0 then 0
    else
      var y := OddInverse(c, w - 1);
      if Low(c * y, w) == 1 then y else y + Pow2(w - 1)
  }

  lemma EvenTimes(c: nat, y: nat)
    requires y % 2 == 0
    ensures c * y == 2 * (c * (y / 2))
  {}

  lemma HalfTimes(r: nat, p: nat)
    requires r % 2 == 0
    ensures r * p == r / 2 * (2 * p)
  {
    EvenTimes(p, r);
    assert r / 2 * (2 * p) == 2 * (p * (r / 2));
  }

  lemma OneMoreTimes(c: nat, y: nat, p: nat, q: nat)
    requires c * y == q * p + 1
    ensures c * (y + p) == (q + c) * p + 1
  {}

  lemma InverseIsOdd(c: nat, z: nat, w: nat)
    requires w > 0 && Low(c * z, w) == 1
    ensures z % 2 == 1
  {
    if z % 2 == 0 {
      EvenTimes(c, z);
    }
  }

  /** If c * y is 1 but for multiples of p, then c * y or c * (y + p) is 1 but for multiples of 2p. */
  lemma NextMultiple(c: nat, y: nat, q: nat, p: nat) returns (z: nat, r: nat)
    requires c % 2 == 1 && c * y == q * p + 1
    ensures (z == y || z == y + p) && c * z == r * (2 * p) + 1
  {
    if q % 2 == 0 {
      HalfTimes(q, p);
      z, r := y, q / 2;
    } else {
      OneMoreTimes(c, y, p, q);
      HalfTimes(q + c, p);
      z, r := y + p, (q + c) / 2;
    }
  }

  lemma NextBit(c: nat, y: nat, w: nat)
    requires c % 2 == 1 && w > 1 && Low(c * y, w - 1) == 1
    ensures Low(c * y, w) == 1 || Low(c * (y + Pow2(w - 1)), w) == 1
  {
    LowAndHigh(c * y, w - 1);
    var p, q := Pow2(w - 1), Shr(c * y, w - 1);
    assert Pow2(w) == 2 * p;
    hide Pow2, Low, Shr;
    var z, r := NextMultiple(c, y, q, p);
    BitsAreUnique(r, 1, w);
  }

  lemma {:induction false} OddInverseWorks(c: nat, w: nat)
    requires c % 2 == 1 && w > 0
    ensures Low(c * OddInverse(c, w), w) == 1 && OddInverse(c, w) % 2 == 1
  {
    if w == 1 {
      assert Low(c, 1) == 1;
    } else {
      OddInverseWorks(c, w - 1);
      hide Low;
      NextBit(c, OddInverse(c, w - 1), w);
    }
    InverseIsOdd(c, OddInverse(c, w), w);
  }

  lemma InverseFactors(x: int, c: int, d: int, y: int, p: int, q: int, m: int)
    requires x * c == p * m + y && c * d == q * m + 1 && 0 <= x < m
    ensures y * d % m == x
  {
    DivModUnique(y * d, x * q - p * d, x, m) by { InverseProduct(x, c, d, y, p, q, m); }
  }

  lemma InverseProduct(x: int, c: int, d: int, y: int, p: int, q: int, m: int)
    requires x * c == p * m + y && c * d == q * m + 1
    ensures y * d == (x * q - p * d) * m + x
  {
    calc {
      y * d;
      { Distributes(x * c, p * m, d); }
      (x * c) * d - (p * m) * d;
      { Associates(x, c, d); Associates(p, m, d); Associates(p, d, m); }
      x * (q * m + 1) - (p * d) * m;
      { Associates(x, q, m); }
      (x * q) * m + x - (p * d) * m;
      { Distributes(x * q, p * d, m); }
      (x * q - p * d) * m + x;
    }
  }

  lemma TimesUndone(x: nat, c: nat, d: nat, w: nat)
    requires IsWord(x, w) && Low(c * d, w) == 1
    ensures Times(Times(x, c, w), d, w) == x
  {
    hide Low, Shr, Pow2;
    var y := Times(x, c, w);
    assert y * d % Pow2(w) == x by {
      LowAndHigh(x * c, w);
      LowAndHigh(c * d, w);
      InverseFactors(x, c, d, y, Shr(x * c, w), Shr(c * d, w), Pow2(w));
    }
    assert Low(y * d, w) == y * d % Pow2(w) by { BitsAreDivMod(y * d, w); }
  }

  /** Multiplying by an odd number is undone by multiplying by its inverse, and the other way. */
  lemma TimesInverse(x: nat, c: nat, w: nat)
    requires IsWord(x, w) && c % 2 == 1 && w > 0
    ensures Times(Times(x, c, w), OddInverse(c, w), w) == x
    ensures Times(Times(x, OddInverse(c, w), w), c, w) == x
  {
    OddInverseWorks(c, w);
    hide OddInverse, Low, Times;
    TimesUndone(x, c, OddInverse(c, w), w);
    assert c * OddInverse(c, w) == OddInverse(c, w) * c;
    TimesUndone(x, OddInverse(c, w), c, w);
  }

  lemma TimesZero(c: nat, w: nat)
    ensures Times(0, c, w) == 0
  {
    LowAndHigh(0, w);
  }

  function Plus(x: nat, c: nat, w: nat): (y: nat)
    ensures IsWord(y, w)
  {
    Low(x + c, w)
  }

  function Minus(x: nat, c: nat, w: nat): (y: nat)
    requires IsWord(c, w)
    ensures IsWord(y, w)
  {
    Low(x + Pow2(w) - c, w)
  }

  lemma WrapOnce(x: nat, w: nat)
    requires x < 2 * Pow2(w)
    ensures Low(x, w) == if x < Pow2(w) then x else x - Pow2(w)
  {
    hide Low, Pow2;
    if x < Pow2(w) {
      BitsAreUnique(0, x, w);
    } else {
      BitsAreUnique(1, x - Pow2(w), w);
    }
  }

  lemma PlusInverse(x: nat, c: nat, w: nat)
    requires IsWord(x, w) && IsWord(c, w)
    ensures Minus(Plus(x, c, w), c, w) == x
    ensures Plus(Minus(x, c, w), c, w) == x
  {
    hide Low, Pow2;
    WrapOnce(x + c, w);
    WrapOnce(x + Pow2(w) - c, w);
    WrapOnce(Plus(x, c, w) + Pow2(w) - c, w);
    WrapOnce(Minus(x, c, w) + c, w);
  }

  // ------------------------------------------------------------------ shifts and rotations

  lemma {:induction false} ShrTwice(x: nat, r: nat, s: nat)
    ensures Shr(Shr(x, r), s) == Shr(x, r + s)
  {
    if r > 0 {
      ShrTwice(x / 2, r - 1, s);
    }
  }

  lemma ShrAll(x: nat, r: nat, w: nat)
    requires IsWord(x, w) && w <= r
    ensures Shr(x, r) == 0
  {
    WiderWord(x, w, r);
    BitsAreUnique(0, x, r);
  }

  lemma ShrShrinks(x: nat, r: nat)
    ensures Shr(x, r) <= x
  {
    if Shr(x, r) > 0 {
      LowAndHigh(x, r);
      AtLeastOnce(Pow2(r), Shr(x, r));
    }
  }

  /** `(x << r) | (x >> (w - r))`: the two parts share no bit, so `|` adds them. */
  function Rotl(x: nat, r: nat, w: nat): nat
    requires r <= w
  {
    Low(x, w - r) * Pow2(r) + Shr(x, w - r)
  }

  lemma PartsFit(high: nat, low: nat, up: nat, down: nat)
    requires high * down + low < up * down && low < down
    ensures high < up && low * up + high < down * up
  {
    if up <= high {
      ProductGrows(up, high, down);
    }
    AtLeastOnce(down - low, up);
    assert (down - low) * up == down * up - low * up;
  }

  lemma RotlInverse(x: nat, r: nat, w: nat)
    requires IsWord(x, w) && r <= w
    ensures IsWord(Rotl(x, r, w), w)
    ensures Rotl(Rotl(x, r, w), w - r, w) == x
  {
    var high, low := Shr(x, w - r), Low(x, w - r);
    assert Pow2(w) == Pow2(r) * Pow2(w - r) by { Pow2Sum(r, w - r); }
    LowAndHigh(x, w - r);
    hide Pow2, Low, Shr;
    PartsFit(high, low, Pow2(r), Pow2(w - r));
    var y := Rotl(x, r, w);
    assert y == low * Pow2(r) + high;
    BitsAreUnique(low, high, r);
    assert w - (w - r) == r;
    assert Rotl(y, w - r, w) == Low(y, r) * Pow2(w - r) + Shr(y, r);
  }

  lemma RotlZero(r: nat, w: nat)
    requires r <= w
    ensures Rotl(0, r, w) == 0
  {
    LowAndHigh(0, w - r);
  }

  // ------------------------------------------------------------------ exclusive or

  function Xor(a: nat, b: nat): nat {
    if a == 0 && b == 0 then 0
    else 2 * Xor(a / 2, b / 2) + (if a % 2 == b % 2 then 0 else 1)
  }

  lemma XorParts(a: nat, b: nat)
    ensures Xor(a, b) / 2 == Xor(a / 2, b / 2)
    ensures Xor(a, b) % 2 == if a % 2 == b % 2 then 0 else 1
  {}

  lemma {:induction false} XorIsWord(a: nat, b: nat, w: nat)
    requires IsWord(a, w) && IsWord(b, w)
    ensures IsWord(Xor(a, b), w)
  {
    if w > 0 {
      XorIsWord(a / 2, b / 2, w - 1);
    }
  }

  lemma {:induction false} XorCommutes(a: nat, b: nat)
    ensures Xor(a, b) == Xor(b, a)
  {
    if a != 0 || b != 0 {
      XorCommutes(a / 2, b / 2);
    }
  }

  lemma {:induction false} XorZero(a: nat)
    ensures Xor(a, 0) == a
  {
    if a != 0 {
      XorZero(a / 2);
    }
  }

  /** Exclusive or is its own inverse. */
  lemma {:induction false} XorInverse(a: nat, b: nat)
    ensures Xor(Xor(a, b), b) == a
  {
    if a != 0 || b != 0 {
      XorInverse(a / 2, b / 2);
      var c := Xor(a, b);
      assert c / 2 == Xor(a / 2, b / 2);
      assert c == 0 && b == 0 ==> a == 0 by { XorZero(a); }
    }
  }

  lemma XorLeftInjective(a: nat, b: nat, c: nat)
    requires Xor(a, b) == Xor(a, c)
    ensures b == c
  {
    XorCommutes(a, b);
    XorCommutes(a, c);
    XorInverse(b, a);
    XorInverse(c, a);
  }

  lemma {:induction false} XorAssociates(a: nat, b: nat, c: nat)
    ensures Xor(Xor(a, b), c) == Xor(a, Xor(b, c))
  {
    if a != 0 || b != 0 || c != 0 {
      XorAssociates(a / 2, b / 2, c / 2);
      XorParts(a, b);
      XorParts(b, c);
      XorParts(Xor(a, b), c);
      XorParts(a, Xor(b, c));
    }
  }

  lemma {:induction false} XorShr(a: nat, b: nat, r: nat)
    ensures Shr(Xor(a, b), r) == Xor(Shr(a, r), Shr(b, r))
  {
    if r > 0 {
      XorParts(a, b);
      XorShr(a / 2, b / 2, r - 1);
    }
  }

  /** Exclusive or of a number shifted past another is their sum. */
  lemma {:induction false} XorDisjoint(high: nat, low: nat, r: nat)
    requires IsWord(low, r)
    ensures Xor(high * Pow2(r), low) == high * Pow2(r) + low
  {
    if r == 0 {
      XorZero(high);
    } else {
      XorDisjoint(high, low / 2, r - 1);
      var h := high * Pow2(r - 1);
      Doubles(high, Pow2(r - 1));
      hide Pow2;
      assert (2 * h) / 2 == h && (2 * h) % 2 == 0;
      XorParts(2 * h, low);
    }
  }

  /** The step `h ^= h >> s`. */
  function XorShift(h: nat, s: nat): nat {
    Xor(h, Shr(h, s))
  }

  lemma XorShiftIsWord(h: nat, s: nat, w: nat)
    requires IsWord(h, w)
    ensures IsWord(XorShift(h, s), w)
  {
    ShrShrinks(h, s);
    XorIsWord(h, Shr(h, s), w);
  }

  /** The inverse of `h ^= h >> s`: repeat it with doubled shifts until the shift passes the
      width. */
  function UnXorShift(y: nat, s: nat, w: nat): nat
    requires s > 0
    decreases w - s
  {
    if s >= w then y else UnXorShift(XorShift(y, s), 2 * s, w)
  }

  lemma {:induction false} XorShiftInverse(h: nat, s: nat, w: nat)
    requires IsWord(h, w) && s > 0
    ensures UnXorShift(XorShift(h, s), s, w) == h
    decreases w - s
  {
    if s >= w {
      ShrAll(h, s, w);
      XorZero(h);
    } else {
      // (h ^ h>>s) ^ (h ^ h>>s)>>s == h ^ h>>2s
      var t := Shr(h, s);
      XorShr(h, t, s);
      ShrTwice(h, s, s);
      XorAssociates(Xor(h, t), t, Shr(h, 2 * s));
      XorInverse(h, t);
      XorShiftInverse(h, 2 * s, w);
    }
  }

  lemma {:induction false} XorShiftOnto(y: nat, s: nat, w: nat)
    requires IsWord(y, w) && s > 0
    ensures IsWord(UnXorShift(y, s, w), w)
    ensures XorShift(UnXorShift(y, s, w), s) == y
    decreases w - s
  {
    if s >= w {
      ShrAll(y, s, w);
      XorZero(y);
    } else {
      XorShiftIsWord(y, s, w);
      XorShiftOnto(XorShift(y, s), 2 * s, w);
      XorShiftsCommute(UnXorShift(y, s, w), y, s, w);
    }
  }

  /** If x xor-shifted by 2s is y xor-shifted by s, then x xor-shifted by s is y. */
  lemma XorShiftsCommute(x: nat, y: nat, s: nat, w: nat)
    requires IsWord(x, w) && IsWord(y, w) && s > 0
    requires XorShift(x, 2 * s) == XorShift(y, s)
    ensures XorShift(x, s) == y
  {
    var z := XorShift(x, s);
    var t := Shr(x, s);
    XorShr(x, t, s);
    ShrTwice(x, s, s);
    XorAssociates(Xor(x, t), t, Shr(x, 2 * s));
    XorInverse(x, t);
    assert XorShift(z, s) == XorShift(x, 2 * s);
    XorShiftIsWord(x, s, w);
    XorShiftInverse(z, s, w);
    XorShiftInverse(y, s, w);
  }
}
