/**
 64-bit words as sets of bit positions. A shift by `k` is `k` shifts by one place,
 so each proof step about a word looks at one constant shift.
 */
module Words {
  const ALL: bv64 := 0xFFFF_FFFF_FFFF_FFFF

  predicate Low(w: bv64) { w & 1 == 1 }
  function Half(w: bv64): bv64 { w >> 1 }
  function Double(w: bv64): bv64 { w << 1 }
  function And(a: bv64, b: bv64): bv64 { a & b }
  function Or(a: bv64, b: bv64): bv64 { a | b }
  function Not(a: bv64): bv64 { !a }

  function ShiftRight(w: bv64, n: nat): bv64 {
    if n == 0 then w else Half(ShiftRight(w, n - 1))
  }

  function ShiftLeft(w: bv64, n: nat): bv64 {
    if n == 0 then w else Double(ShiftLeft(w, n - 1))
  }

  /** Bit `i` of `w`. */
  predicate Has(w: bv64, i: nat) { Low(ShiftRight(w, i)) }

  /** The word `1 << i`. */
  function Bit(i: nat): bv64 { ShiftLeft(1, i) }

  // ---- one place at a time ----

  lemma AndHalf(a: bv64, b: bv64) ensures Half(And(a, b)) == And(Half(a), Half(b)) {}
  lemma AndLow(a: bv64, b: bv64) ensures Low(And(a, b)) == (Low(a) && Low(b)) {}
  lemma OrHalf(a: bv64, b: bv64) ensures Half(Or(a, b)) == Or(Half(a), Half(b)) {}
  lemma OrLow(a: bv64, b: bv64) ensures Low(Or(a, b)) == (Low(a) || Low(b)) {}
  lemma DoubleLow(w: bv64) ensures !Low(Double(w)) {}
  lemma DoubleHalf(w: bv64) ensures Half(Double(w)) == And(w, Half(ALL)) {}
  lemma HalfZero(x: bv64) ensures x == 0 <==> Half(x) == 0 && !Low(x) {}
  lemma OnesHalf(x: bv64) requires And(x, x + 1) == 0 ensures And(Half(x), Half(x) + 1) == 0 {}
  lemma OnesLow(x: bv64) requires And(x, x + 1) == 0 && x != 0 ensures Low(x) {}

  // ---- every position ----

  lemma {:induction false} HasAnd(a: bv64, b: bv64, i: nat)
    ensures ShiftRight(And(a, b), i) == And(ShiftRight(a, i), ShiftRight(b, i))
    ensures Has(And(a, b), i) <==> Has(a, i) && Has(b, i)
  {
    AndLow(ShiftRight(a, i), ShiftRight(b, i));
    if i > 0 {
      HasAnd(a, b, i - 1);
      AndHalf(ShiftRight(a, i - 1), ShiftRight(b, i - 1));
    }
  }

  lemma {:induction false} ShiftOr(a: bv64, b: bv64, i: nat)
    ensures ShiftRight(Or(a, b), i) == Or(ShiftRight(a, i), ShiftRight(b, i))
  {
    if i > 0 {
      ShiftOr(a, b, i - 1);
      OrHalf(ShiftRight(a, i - 1), ShiftRight(b, i - 1));
    }
  }

  lemma HasOr(a: bv64, b: bv64, i: nat)
    ensures Has(Or(a, b), i) <==> Has(a, i) || Has(b, i)
  {
    ShiftOr(a, b, i);
    OrLow(ShiftRight(a, i), ShiftRight(b, i));
  }

  lemma {:induction false} ShiftTwice(w: bv64, n: nat, i: nat)
    ensures ShiftRight(ShiftRight(w, n), i) == ShiftRight(w, n + i)
    ensures Has(ShiftRight(w, n), i) <==> Has(w, n + i)
  {
    if i > 0 {
      ShiftTwice(w, n, i - 1);
      assert ShiftRight(ShiftRight(w, n), i) == Half(ShiftRight(ShiftRight(w, n), i - 1));
    }
  }

  lemma ShiftOne(w: bv64, n: nat)
    ensures ShiftRight(w, n + 1) == Half(ShiftRight(w, n))
  {}

  lemma EightPlaces(x: bv64)
    ensures Half(Half(Half(Half(Half(Half(Half(Half(x)))))))) == x >> 8
  {}

  lemma ShiftByte(w: bv64, n: nat)
    ensures ShiftRight(w, n + 8) == ShiftRight(w, n) >> 8
  {
    hide Half, ShiftRight;
    EightPlaces(ShiftRight(w, n));
    ShiftOne(w, n); ShiftOne(w, n + 1); ShiftOne(w, n + 2); ShiftOne(w, n + 3);
    ShiftOne(w, n + 4); ShiftOne(w, n + 5); ShiftOne(w, n + 6); ShiftOne(w, n + 7);
  }

  lemma EightBytes(w: bv64)
    ensures w >> 8 >> 8 >> 8 >> 8 >> 8 >> 8 >> 8 >> 8 == 0
  {}

  /** Nothing is left after 64 places. */
  lemma {:induction false} ShiftOut(w: bv64, n: nat)
    requires 64 <= n
    ensures ShiftRight(w, n) == 0
  {
    if n == 64 {
      ShiftByte(w, 0); ShiftByte(w, 8); ShiftByte(w, 16); ShiftByte(w, 24);
      ShiftByte(w, 32); ShiftByte(w, 40); ShiftByte(w, 48); ShiftByte(w, 56);
      EightBytes(w);
    } else {
      ShiftOut(w, n - 1);
      HalfZero(ShiftRight(w, n - 1));
    }
  }

  /** A word with no bit from place `n` on is zero from there. */
  lemma {:induction false} ZeroFrom(w: bv64, n: nat)
    requires n <= 64
    requires forall i: nat | n <= i < 64 :: !Has(w, i)
    ensures ShiftRight(w, n) == 0
    decreases 64 - n
  {
    if n == 64 {
      ShiftOut(w, n);
    } else {
      ZeroFrom(w, n + 1);
      assert !Has(w, n);
      HalfZero(ShiftRight(w, n));
    }
  }

  lemma {:induction false} ZeroStays(w: bv64, n: nat, i: nat)
    requires ShiftRight(w, n) == 0
    ensures ShiftRight(w, n + i) == 0 && !Has(w, n + i)
  {
    HalfZero(0);
    if i > 0 { ZeroStays(w, n, i - 1); }
  }

  /** A word is zero exactly when it has no bit. */
  lemma ZeroHasNothing(w: bv64)
    ensures w == 0 <==> forall i: nat | i < 64 :: !Has(w, i)
  {
    if forall i: nat | i < 64 :: !Has(w, i) { ZeroFrom(w, 0); }
    if w == 0 {
      forall i: nat | i < 64 ensures !Has(w, i) { ZeroStays(w, 0, i); }
    }
  }

  lemma {:induction false} OnesForm(n: nat)
    ensures And(ShiftRight(ALL, n), ShiftRight(ALL, n) + 1) == 0
  {
    hide And, Half, ALL;
    if n > 0 { OnesForm(n - 1); OnesHalf(ShiftRight(ALL, n - 1)); } else { AllOnes(); }
  }

  lemma AllOnes()
    ensures And(ALL, ALL + 1) == 0
  {}

  lemma OnesNonzero(n: nat)
    requires n < 64
    ensures ShiftRight(ALL, n) != 0
  {
    ShiftByte(ALL, 0); ShiftByte(ALL, 8); ShiftByte(ALL, 16); ShiftByte(ALL, 24);
    ShiftByte(ALL, 32); ShiftByte(ALL, 40); ShiftByte(ALL, 48);
    assert ShiftRight(ALL, 56) == 0xFF;
    ShiftTwice(ALL, 56, 7);
    assert ShiftRight(0xFF, 7) == 1;
    if ShiftRight(ALL, n) == 0 { ZeroStays(ALL, n, 63 - n); }
  }

  lemma AllHas(i: nat)
    ensures Has(ALL, i) <==> i < 64
  {
    hide And, ShiftRight, ALL;
    if i < 64 {
      OnesForm(i);
      OnesNonzero(i);
      OnesLow(ShiftRight(ALL, i));
    } else {
      ShiftOut(ALL, i);
      HalfZero(0);
    }
  }

  lemma HasDouble(w: bv64, i: nat)
    requires i < 64
    ensures Has(Double(w), i) <==> 0 < i && Has(w, i - 1)
  {
    DoubleLow(w);
    if i > 0 {
      ShiftTwice(Double(w), 1, i - 1);
      DoubleHalf(w);
      HasAnd(w, Half(ALL), i - 1);
      ShiftTwice(ALL, 1, i - 1);
      AllHas(i);
      assert ShiftRight(ALL, 1) == Half(ALL);
      assert ShiftRight(Double(w), 1) == Half(Double(w));
    }
  }

  lemma {:induction false} HasShiftLeft(w: bv64, n: nat, i: nat)
    requires i < 64
    ensures Has(ShiftLeft(w, n), i) <==> n <= i && Has(w, i - n)
  {
    if n > 0 {
      HasDouble(ShiftLeft(w, n - 1), i);
      if i > 0 { HasShiftLeft(w, n - 1, i - 1); }
    }
  }

  lemma HasOne(i: nat)
    ensures Has(1, i) <==> i == 0
  {
    if i > 0 {
      assert ShiftRight(1, 1) == 0;
      ZeroStays(1, 1, i - 1);
    }
  }

  lemma HasBit(k: nat, i: nat)
    requires i < 64
    ensures Has(Bit(k), i) <==> i == k
  {
    HasShiftLeft(1, k, i);
    if k <= i { HasOne(i - k); }
  }

  lemma {:induction false} HasNot(w: bv64, i: nat)
    requires i < 64
    ensures Has(Not(w), i) <==> !Has(w, i)
  {
    // `w` and its complement share no bit and cover the word.
    NotParts(w);
    HasAnd(w, Not(w), i);
    HasOr(w, Not(w), i);
    AllHas(i);
    ZeroHasNothing(0);
  }

  lemma NotParts(w: bv64)
    ensures And(w, Not(w)) == 0 && Or(w, Not(w)) == ALL
  {}

  // ---- the masks and counts of the bitmap ----

  /** `w & (MAX << k)` */
  function KeepFrom(w: bv64, k: nat): bv64 { And(w, ShiftLeft(ALL, k)) }

  /** `w & (MAX >> (63 - k))` */
  function KeepTo(w: bv64, k: nat): bv64 requires k < 64 { And(w, ShiftRight(ALL, 63 - k)) }

  lemma Keeps(w: bv64, k: nat, i: nat)
    requires k < 64 && i < 64
    ensures Has(KeepFrom(w, k), i) <==> k <= i && Has(w, i)
    ensures Has(KeepTo(w, k), i) <==> i <= k && Has(w, i)
  {
    hide And, ShiftLeft, ShiftRight, ALL;
    HasAnd(w, ShiftLeft(ALL, k), i);
    HasAnd(w, ShiftRight(ALL, 63 - k), i);
    HasShiftLeft(ALL, k, i);
    ShiftTwice(ALL, 63 - k, i);
    AllHas(63 - k + i);
    if k <= i { AllHas(i - k); }
  }

  lemma Updates(w: bv64, k: nat, i: nat)
    requires k < 64 && i < 64
    ensures Has(Or(w, Bit(k)), i) <==> i == k || Has(w, i)
    ensures Has(And(w, Not(Bit(k))), i) <==> i != k && Has(w, i)
  {
    hide And, Or, Not, Bit, Has, ShiftRight;
    HasBit(k, i);
    HasNot(Bit(k), i);
    HasOr(w, Bit(k), i);
    HasAnd(w, Not(Bit(k)), i);
  }

  lemma Probe(w: bv64, k: nat)
    requires k < 64
    ensures And(w, Bit(k)) != 0 <==> Has(w, k)
  {
    var both := And(w, Bit(k));
    forall i: nat | i < 64
      ensures Has(both, i) <==> i == k && Has(w, k)
    {
      HasAnd(w, Bit(k), i);
      HasBit(k, i);
    }
    ZeroHasNothing(both);
    assert Has(both, k) <==> Has(w, k);
  }

  /** Number of zero bits below the lowest set bit. */
  function TrailingZeros(w: bv64): (n: nat)
    requires w != 0
    ensures n < 64 && Has(w, n)
    ensures forall i: nat | i < n :: !Has(w, i)
  {
    ZeroHasNothing(w);
    LowestFrom(w, 0)
  }

  function LowestFrom(w: bv64, k: nat): (n: nat)
    requires exists i: nat :: k <= i < 64 && Has(w, i)
    requires forall i: nat | i < k :: !Has(w, i)
    ensures n < 64 && Has(w, n)
    ensures forall i: nat | i < n :: !Has(w, i)
    decreases 64 - k
  {
    if Has(w, k) then k else LowestFrom(w, k + 1)
  }

  /** Number of zero bits above the highest set bit. */
  function LeadingZeros(w: bv64): (n: nat)
    requires w != 0
    ensures n < 64 && Has(w, 63 - n)
    ensures forall i: nat | 63 - n < i < 64 :: !Has(w, i)
  {
    ZeroHasNothing(w);
    HighestTo(w, 63)
  }

  function HighestTo(w: bv64, k: nat): (n: nat)
    requires k < 64
    requires exists i: nat :: i <= k && Has(w, i)
    requires forall i: nat | k < i < 64 :: !Has(w, i)
    ensures n < 64 && Has(w, 63 - n)
    ensures forall i: nat | 63 - n < i < 64 :: !Has(w, i)
  {
    if Has(w, k) then 63 - k else HighestTo(w, k - 1)
  }
}
