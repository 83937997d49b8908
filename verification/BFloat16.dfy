/** The bfloat16 branch of `_round_to_dtype`: adding `0x7FFF` plus the lowest kept bit and clearing the
low half of a float32 pattern rounds to nearest, ties to even (section 4.3.1 of IEEE 754-2019).

Magnitudes are measured in units of 2^-149, the smallest positive float32, so they are integers. The
infinity pattern 0x7F800000 stands for 2^128, the value the format's exponent would carry to. */
module BFloat16 {
  import opened Sums

  const HALF := 0x1_0000
  const SIGN := 0x8000_0000
  const INFINITY := 0x7F80_0000

  function Pow2(n: nat): (r: nat)
    ensures r >= 1
  { if n == 0 then 1 else 2 * Pow2(n - 1) }

  /** The magnitude of the pattern `m` without its sign bit. */
  function Magnitude(m: nat): nat {
    var e, f := m / 0x80_0000, m % 0x80_0000;
    if e == 0 then f else (0x80_0000 + f) * Pow2(e - 1)
  }

  /** The signed value of a finite or infinite float32 pattern, in units of 2^-149. */
  function Value(bits: nat): int {
    if bits < SIGN then Magnitude(bits) else -(Magnitude(bits - SIGN) as int)
  }
  predicate Finite(bits: nat) { bits < INFINITY || SIGN <= bits < SIGN + INFINITY }
  predicate IsInfinity(bits: nat) { bits == INFINITY || bits == SIGN + INFINITY }
  predicate IsNaN(bits: nat) { INFINITY < bits < SIGN || SIGN + INFINITY < bits < 2 * SIGN }
  predicate IsBFloat(bits: nat) { bits % HALF == 0 && (Finite(bits) || IsInfinity(bits)) }

  /** `(bits + 0x7FFF + ((bits >> 16) & 1)) & 0xFFFF0000` on an unbounded integer. */
  function Round(bits: nat): (r: nat) {
    (bits + 0x7FFF + bits / HALF % 2) / HALF % HALF * HALF
  }

  // ------------------------------------------------------- magnitudes are piecewise affine

  /** The distance between adjacent float32 magnitudes in block `q` of 2^16 patterns. */
  function Step(q: nat): nat { if q < 0x80 then 1 else Pow2(q / 0x80 - 1) }

  lemma BlockDigits(q: nat, r: nat)
    requires r < HALF
    ensures (q * HALF + r) / 0x80_0000 == q / 0x80
    ensures (q * HALF + r) % 0x80_0000 == q % 0x80 * HALF + r
  {
    assert q == q / 0x80 * 0x80 + q % 0x80;
    DivModUnique(q * HALF + r, q / 0x80, q % 0x80 * HALF + r, 0x80_0000);
  }

  /** Inside a block, and up to and including the start of the next one, the magnitude is affine: a carry
  into the exponent lands on the same line. */
  lemma BlockAffine(q: nat, r: nat)
    requires r <= HALF
    ensures Magnitude(q * HALF + r) == Magnitude(q * HALF) + r * Step(q)
  {
    BlockDigits(q, 0);
    if r < HALF {
      BlockDigits(q, r);
      var base, p := 0x80_0000 + q % 0x80 * HALF, Step(q);
      assert (base + r) * p == base * p + r * p;
    } else {
      BlockCarry(q);
    }
  }

  lemma BlockCarry(q: nat)
    ensures Magnitude((q + 1) * HALF) == Magnitude(q * HALF) + HALF * Step(q)
  {
    BlockDigits(q, 0);
    BlockDigits(q + 1, 0);
    assert q == q / 0x80 * 0x80 + q % 0x80;
    if q % 0x80 == 0x7F {
      DivModUnique(q + 1, q / 0x80 + 1, 0, 0x80);
      assert Pow2(q / 0x80) == if q < 0x80 then 1 else 2 * Pow2(q / 0x80 - 1);
    } else {
      DivModUnique(q + 1, q / 0x80, q % 0x80 + 1, 0x80);
      var base, p := 0x80_0000 + q % 0x80 * HALF, Step(q);
      assert (base + HALF) * p == base * p + HALF * p;
    }
  }

  lemma {:induction false} BlocksIncrease(a: nat, b: nat)
    requires a <= b
    ensures Magnitude(a * HALF) <= Magnitude(b * HALF)
    ensures a < b ==> Magnitude(a * HALF) < Magnitude(b * HALF)
    decreases b - a
  {
    if a < b {
      BlockCarry(a);
      BlocksIncrease(a + 1, b);
    }
  }

  lemma BlocksOrdered(a: nat, b: nat)
    ensures a < b ==> Magnitude(a * HALF) < Magnitude(b * HALF)
  {
    if a < b { BlocksIncrease(a, b); }
  }

  // ------------------------------------------------------------------ the rounding step

  /** The block the trick chooses for offset `r` in block `q`. */
  function Chosen(q: nat, r: nat): nat {
    if r < 0x8000 || (r == 0x8000 && q % 2 == 0) then q else q + 1
  }

  lemma RoundBlock(q: nat, r: nat)
    requires r < HALF
    ensures Round(q * HALF + r) == Chosen(q, r) % HALF * HALF
  {
    assert (q * HALF + r) / HALF == q;
    var biased := q * HALF + r + 0x7FFF + q % 2;
    assert biased / HALF == Chosen(q, r);
  }

  function Abs(x: int): nat { if x < 0 then -x else x }

  /** Positive case: the chosen block is nearest among all block starts, and even on a tie. */
  lemma NearestBlock(q: nat, r: nat, b: nat)
    requires r < HALF
    ensures var x, c := Magnitude(q * HALF + r), Chosen(q, r);
            && Abs(x - Magnitude(c * HALF)) <= Abs(x - Magnitude(b * HALF))
            && (Abs(x - Magnitude(c * HALF)) == Abs(x - Magnitude(b * HALF)) && b != c ==> c % 2 == 0)
  {
    hide Magnitude, Step, Pow2;
    BlockAffine(q, r);
    BlockCarry(q);
    StepPositive(q);
    StepCompare(r, Step(q));
    BlocksOrdered(b, q);
    BlocksOrdered(q + 1, b);
    NearestOfTwo(Magnitude(q * HALF), Magnitude(q * HALF + r), Magnitude((q + 1) * HALF), Magnitude(b * HALF), q, r, b);
  }

  lemma StepPositive(q: nat)
    ensures Step(q) >= 1
  {}

  lemma NearestOfTwo(lo: nat, x: nat, hi: nat, y: nat, q: nat, r: nat, b: nat)
    requires r < HALF && lo <= x < hi
    requires r < 0x8000 ==> x - lo < hi - x
    requires r == 0x8000 ==> x - lo == hi - x
    requires r > 0x8000 ==> x - lo > hi - x
    requires (b < q ==> y < lo) && (b == q ==> y == lo) && (b == q + 1 ==> y == hi) && (b > q + 1 ==> y > hi)
    ensures var c := if Chosen(q, r) == q then lo else hi;
            && Abs(x - c) <= Abs(x - y)
            && (Abs(x - c) == Abs(x - y) && b != Chosen(q, r) ==> Chosen(q, r) % 2 == 0)
  {}

  lemma StepCompare(r: nat, step: nat)
    requires step >= 1 && r < HALF
    ensures r < 0x8000 ==> r * step < (HALF - r) * step
    ensures r == 0x8000 ==> r * step == (HALF - r) * step
    ensures r > 0x8000 ==> r * step > (HALF - r) * step
    ensures (HALF - r) * step == HALF * step - r * step
    ensures r > 0 ==> r * step > 0
    ensures (HALF - r) * step > 0
  {}

  lemma MagnitudeZeroBlock()
    ensures Magnitude(0) == 0
  {}

  /** Splitting a 32-bit pattern into sign, block and offset. */
  lemma Split(bits: nat)
    requires Finite(bits) || IsInfinity(bits)
    ensures var m := if bits < SIGN then bits else bits - SIGN;
            && m <= INFINITY && m == m / HALF * HALF + m % HALF && m / HALF <= 0x7F80
            && (m / HALF == 0x7F80 ==> m % HALF == 0)
            && Chosen(m / HALF, m % HALF) <= 0x7F80
            && Round(bits) == Chosen(m / HALF, m % HALF) * HALF + (if bits < SIGN then 0 else SIGN)
  {
    var m := if bits < SIGN then bits else bits - SIGN;
    SplitSigned(m / HALF, m % HALF, bits < SIGN);
  }
  lemma SplitSigned(q: nat, r: nat, positive: bool)
    requires r < HALF && q * HALF + r <= INFINITY
    ensures q <= 0x7F80 && (q == 0x7F80 ==> r == 0) && Chosen(q, r) <= 0x7F80
    ensures Round(q * HALF + r + (if positive then 0 else SIGN)) == Chosen(q, r) * HALF + (if positive then 0 else SIGN)
  {
    hide Round;
    if positive {
      RoundBlock(q, r);
    } else {
      assert (q + 0x8000) * HALF + r == q * HALF + r + SIGN;
      RoundBlock(q + 0x8000, r);
    }
  }

  /** A bfloat16 of either sign, as a sign and a block. */
  lemma SplitBFloat(b: nat)
    requires IsBFloat(b)
    ensures var m := if b < SIGN then b else b - SIGN; m == m / HALF * HALF && m / HALF <= 0x7F80
  {}

  /** Round-to-nearest, ties-to-even, over every bfloat16 of both signs and both infinities. */
  lemma RoundsToNearestEven(bits: nat, b: nat)
    requires Finite(bits) && IsBFloat(b)
    ensures IsBFloat(Round(bits)) && (Round(bits) < SIGN <==> bits < SIGN)
    ensures Abs(Value(bits) - Value(Round(bits))) <= Abs(Value(bits) - Value(b))
    ensures (Abs(Value(bits) - Value(Round(bits))) == Abs(Value(bits) - Value(b)) && Value(b) != Value(Round(bits)))
              ==> Round(bits) / HALF % 2 == 0
  {
    hide Magnitude, Round, Step;
    Split(bits);
    SplitBFloat(b);
    var m := if bits < SIGN then bits else bits - SIGN;
    var n := if b < SIGN then b else b - SIGN;
    var q, r := m / HALF, m % HALF;
    NearestBlock(q, r, n / HALF);
    NearestBlock(q, r, 0);
    MagnitudeZeroBlock();
    assert (Chosen(q, r) * HALF + SIGN) / HALF == Chosen(q, r) + 0x8000;
  }

  // ------------------------------------------------------------ overflow, order, repetition

  lemma {:induction false} Pow2Add(a: nat, b: nat)
    ensures Pow2(a + b) == Pow2(a) * Pow2(b)
  {
    if a > 0 {
      Pow2Add(a - 1, b);
      Double(Pow2(a - 1), Pow2(b));
    }
  }

  lemma Double(x: nat, y: nat)
    ensures 2 * (x * y) == (2 * x) * y
  {}

  /** 2^emax * (2 - 2^-8) for emax 127: the magnitude from which a result overflows. */
  function OverflowThreshold(): nat { 511 * Pow2(268) }

  lemma Pow15()
    ensures Pow2(15) == 0x8000
  {
    Pow2Add(5, 10);
    Pow2Add(5, 5);
    assert Pow2(5) == 32;
  }

  lemma NormalMagnitude(q: nat, r: nat, e: nat)
    requires q / 0x80 == e + 1 && r < HALF
    ensures Magnitude(q * HALF + r) == (0x80_0000 + q % 0x80 * HALF + r) * Pow2(e)
  {
    BlockDigits(q, r);
  }

  lemma ThresholdPattern()
    ensures Magnitude(0x7F7F * HALF + 0x8000) == OverflowThreshold()
  {
    hide Magnitude, Pow2;
    NormalMagnitude(0x7F7F, 0x8000, 253);
    Pow2Add(15, 253);
    Pow15();
  }

  /** Magnitudes increase with the pattern. */
  lemma PatternsIncrease(a: nat, b: nat)
    ensures a < b <==> Magnitude(a) < Magnitude(b)
  {
    hide Magnitude, Step;
    if a < b { PatternsOrdered(a, b); }
    if b < a { PatternsOrdered(b, a); }
  }
  lemma PatternsOrdered(a: nat, b: nat)
    requires a < b
    ensures Magnitude(a) < Magnitude(b)
  {
    hide Magnitude, Step;
    var qa, qb := a / HALF, b / HALF;
    OffsetsOrdered(qb, 0, b % HALF);
    if qa == qb {
      OffsetsOrdered(qa, a % HALF, b % HALF);
    } else {
      OffsetsOrdered(qa, a % HALF, HALF);
      BlocksOrdered(qa + 1, qb);
    }
  }
  lemma OffsetsOrdered(q: nat, r: nat, s: nat)
    requires r <= s <= HALF
    ensures Magnitude(q * HALF + r) <= Magnitude(q * HALF + s)
    ensures r < s ==> Magnitude(q * HALF + r) < Magnitude(q * HALF + s)
  {
    hide Magnitude, Step;
    BlockAffine(q, r);
    BlockAffine(q, s);
    StepPositive(q);
    if r < s { MulMono(r + 1, s, Step(q)); }
  }

  /** Overflow: the result is an infinity exactly from the threshold of the standard on. */
  lemma OverflowsExactly(bits: nat)
    requires Finite(bits)
    ensures IsInfinity(Round(bits)) <==> Abs(Value(bits)) >= OverflowThreshold()
  {
    hide Magnitude, Round, OverflowThreshold;
    Split(bits);
    ThresholdPattern();
    var m := if bits < SIGN then bits else bits - SIGN;
    PatternsIncrease(m, 0x7F7F * HALF + 0x8000);
    assert IsInfinity(Round(bits)) <==> Chosen(m / HALF, m % HALF) == 0x7F80;
  }

  /** Rounding never reverses an order, infinities included. */
  lemma RoundMonotone(a: nat, b: nat)
    requires (Finite(a) || IsInfinity(a)) && (Finite(b) || IsInfinity(b))
    requires Value(a) <= Value(b)
    ensures Value(Round(a)) <= Value(Round(b))
  {
    hide Magnitude, Round;
    Split(a);
    Split(b);
    var ma, mb := if a < SIGN then a else a - SIGN, if b < SIGN then b else b - SIGN;
    PatternsIncrease(ma, mb);
    PatternsIncrease(mb, ma);
    PatternsIncrease(0, ma);
    PatternsIncrease(0, mb);
    MagnitudeZeroBlock();
    var ca, cb := Chosen(ma / HALF, ma % HALF), Chosen(mb / HALF, mb % HALF);
    BlocksOrdered(ca, cb);
    BlocksOrdered(cb, ca);
    BlocksOrdered(0, ca);
    BlocksOrdered(0, cb);
  }

  /** A bfloat16 rounds to itself and nothing else does. */
  lemma RoundFixesBFloats(bits: nat)
    requires Finite(bits) || IsInfinity(bits)
    ensures Round(bits) == bits <==> IsBFloat(bits)
  {
    hide Round;
    Split(bits);
    var m := if bits < SIGN then bits else bits - SIGN;
    assert bits % HALF == m % HALF;
  }

  /** Rounding gives a bfloat16, so rounding twice is rounding once. */
  lemma RoundTwice(bits: nat)
    requires Finite(bits) || IsInfinity(bits)
    ensures IsBFloat(Round(bits)) && Round(Round(bits)) == Round(bits)
  {
    hide Round;
    Split(bits);
    RoundFixesBFloats(Round(bits));
  }

  /** NaN patterns: the trick keeps a NaN exactly between the patterns that tie down to infinity and those
  that carry out of the exponent into the sign. */
  lemma NaNSurvivesExactly(bits: nat)
    requires IsNaN(bits)
    ensures IsNaN(Round(bits)) <==> 0x7F80_8000 < bits % SIGN < 0x7FFF_8000
  {
    hide Round;
    var q, r := bits / HALF, bits % HALF;
    RoundBlock(q, r);
    var m := if bits < SIGN then bits else bits - SIGN;
    assert bits % SIGN == m;
    assert Round(bits) == (if Chosen(q, r) == HALF then 0 else Chosen(q, r) * HALF);
  }
}
