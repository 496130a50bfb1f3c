/**
  Q64.64 fixed-point arithmetic and the tick-to-price function of the concentrated
  liquidity pools: a product of precomputed powers, one per set bit of the tick.
*/
module TickMath {
  import opened Arithmetic

  const Q32: nat := 0x1_0000_0000
  const Q64: nat := 0x1_0000_0000_0000_0000
  const Q127: nat := 0x8000_0000_0000_0000_0000_0000_0000_0000
  const Q128: nat := 0x1_0000_0000_0000_0000_0000_0000_0000_0000

  const TICK_RATIOS: seq<nat> := [
    18447666410913237093,
    18448588794233782755,
    18450433699234678119,
    18454124062740255875,
    18461507004283223312,
    18476281749631266690,
    18505866722479494652,
    18565178862011796984,
    18684374044615830753,
    18925065152102488741,
    19415789018386924678,
    20435739862829184269,
    22639196493023416200,
    27784481413182840296,
    41848979110613408870,
    94940171859194227663,
    488630199271840203185,
    12943176892702717671113,
    9081593337360425506718466
  ]

  // ---------------------------------------------------------------------
  // Multiplication by limbs
  // ---------------------------------------------------------------------

  /** `mul_q64`, limb by limb. The carry out of the middle sum is added to the high
      product without the shift its weight would need. */
  function MulQ64(a: nat, b: nat): nat {
    var aHi, aLo := a / Q64, a % Q64;
    var bHi, bLo := b / Q64, b % Q64;
    var ll, hl, lh, hh := aLo * bLo, aHi * bLo, aLo * bHi, aHi * bHi;
    var sum1 := hl + lh;
    var sum2 := sum1 % Q128 + ll / Q64;
    var carry := sum1 / Q128 + sum2 / Q128;
    (hh + carry) % Q128 * Q64 + sum2 % Q128
  }

  /** The middle of the 256-bit product: what the two sums of `mul_q64` add up to. */
  function Middle(a: nat, b: nat): nat {
    (a / Q64) * (b % Q64) + (a % Q64) * (b / Q64) + (a % Q64) * (b % Q64) / Q64
  }

  /** floor(a * b / 2^64) is the high product, shifted, plus the middle. */
  lemma ProductByLimbs(a: nat, b: nat)
    ensures a * b / Q64 == (a / Q64) * (b / Q64) * Q64 + Middle(a, b)
  {
    var aHi, aLo, bHi, bLo := a / Q64, a % Q64, b / Q64, b % Q64;
    var ll := aLo * bLo;
    Expand(aHi, aLo, bHi, bLo);
    DivUnique(a * b, Q64, aHi * bHi * Q64 + aHi * bLo + aLo * bHi + ll / Q64, ll % Q64);
  }

  lemma Expand(aHi: nat, aLo: nat, bHi: nat, bLo: nat)
    ensures (aHi * Q64 + aLo) * (bHi * Q64 + bLo) ==
            Q64 * (aHi * bHi * Q64 + aHi * bLo + aLo * bHi) + aLo * bLo
  {
    calc {
      (aHi * Q64 + aLo) * (bHi * Q64 + bLo);
      aHi * Q64 * (bHi * Q64 + bLo) + aLo * (bHi * Q64 + bLo);
      { assert aHi * Q64 * (bHi * Q64 + bLo) == Q64 * (aHi * (bHi * Q64 + bLo)); }
      Q64 * (aHi * (bHi * Q64 + bLo)) + aLo * (bHi * Q64 + bLo);
      { assert aHi * (bHi * Q64 + bLo) == aHi * bHi * Q64 + aHi * bLo; }
      Q64 * (aHi * bHi * Q64 + aHi * bLo) + aLo * (bHi * Q64 + bLo);
      { assert aLo * (bHi * Q64 + bLo) == Q64 * (aLo * bHi) + aLo * bLo; }
      Q64 * (aHi * bHi * Q64 + aHi * bLo) + Q64 * (aLo * bHi) + aLo * bLo;
    }
  }

  lemma LimbBound(x: nat, y: nat, n: nat)
    requires x < n && y < n
    ensures x * y <= (n - 1) * (n - 1)
  {
    MulMonotone(x, y, n - 1);
    MulMonotone(n - 1, x, n - 1);
  }

  lemma Carry(sum1: nat, low: nat)
    ensures var sum2 := sum1 % Q128 + low;
            && sum1 / Q128 + sum2 / Q128 == (sum1 + low) / Q128
            && sum2 % Q128 == (sum1 + low) % Q128
  {
    var sum2 := sum1 % Q128 + low;
    DivUnique(sum1 + low, Q128, sum1 / Q128 + sum2 / Q128, sum2 % Q128);
  }

  lemma MulQ64Value(a: nat, b: nat)
    ensures MulQ64(a, b) ==
            ((a / Q64) * (b / Q64) + Middle(a, b) / Q128) % Q128 * Q64 + Middle(a, b) % Q128
  {
    var aHi, aLo, bHi, bLo := a / Q64, a % Q64, b / Q64, b % Q64;
    Carry(aHi * bLo + aLo * bHi, aLo * bLo / Q64);
  }

  lemma MiddleBound(a: nat, b: nat)
    requires a < Q128 && b < Q128
    ensures Middle(a, b) < 3 * Q128 && (a / Q64) * (b / Q64) + 2 < Q128
  {
    var aHi, aLo, bHi, bLo := a / Q64, a % Q64, b / Q64, b % Q64;
    assert aHi < Q64 && bHi < Q64;
    LimbBound(aHi, bLo, Q64);
    LimbBound(aLo, bHi, Q64);
    LimbBound(aLo, bLo, Q64);
    LimbBound(aHi, bHi, Q64);
  }

  /** For 128-bit operands `mul_q64` is floor(a * b / 2^64) exactly when the middle of the
      product fits 128 bits, that is when there is no carry. */
  lemma MulQ64ExactIff(a: nat, b: nat)
    requires a < Q128 && b < Q128
    ensures MulQ64(a, b) == a * b / Q64 <==> Middle(a, b) < Q128
  {
    hide MulQ64, Middle;
    MulQ64Value(a, b);
    MiddleBound(a, b);
    ProductByLimbs(a, b);
    CarryDecides((a / Q64) * (b / Q64), Middle(a, b));
  }

  lemma CarryDecides(hh: nat, m: nat)
    requires m < 3 * Q128 && hh + 2 < Q128
    ensures (hh + m / Q128) % Q128 * Q64 + m % Q128 == hh * Q64 + m <==> m < Q128
  {
    var carry := m / Q128;
    assert carry <= 2;
    assert (hh + carry) % Q128 == hh + carry;
  }

  /** Below 2^127 there is never a carry. */
  lemma MulQ64Exact(a: nat, b: nat)
    requires a < Q127 && b < Q127
    ensures MulQ64(a, b) == a * b / Q64
  {
    var aHi, aLo, bHi, bLo := a / Q64, a % Q64, b / Q64, b % Q64;
    assert aHi < Q64 / 2 && bHi < Q64 / 2;
    MulMonotone(aHi, bLo, Q64 - 1);
    MulMonotone(bHi, aLo, Q64 - 1);
    LimbBound(aLo, bLo, Q64);
    assert Middle(a, b) < Q128;
    MulQ64ExactIff(a, b);
  }

  /** With a carry it is wrong. */
  lemma MulQ64Carries()
    ensures MulQ64(Q128 - 1, Q128 - 1) != (Q128 - 1) * (Q128 - 1) / Q64
  {
    assert Middle(Q128 - 1, Q128 - 1) >= Q128;
    MulQ64ExactIff(Q128 - 1, Q128 - 1);
  }

  // ---------------------------------------------------------------------
  // The product over the bits of a tick
  // ---------------------------------------------------------------------

  /** Bit `k` of `t`: `t & (1 << k)`. */
  predicate BitSet(t: nat, k: nat) {
    t / Pow2(k) % 2 == 1
  }

  /** One exact multiplication: floor(a * ratio / 2^64). */
  function Scale(a: nat, ratio: nat): nat {
    a * ratio / Q64
  }

  /** The accumulator after the bits below `k`, in exact arithmetic. */
  function Acc(t: nat, k: nat): nat
    requires k <= |TICK_RATIOS|
  {
    if k == 0 then Q64
    else if BitSet(t, k - 1) then Scale(Acc(t, k - 1), TICK_RATIOS[k - 1])
    else Acc(t, k - 1)
  }

  /** The number the bits of `t` below `k` make. */
  function Low(t: nat, k: nat): nat {
    t % Pow2(k)
  }

  /** Each ratio is at least the floor of the square of the one before, and all are above one. */
  lemma RatiosGrow(k: nat)
    requires k < |TICK_RATIOS|
    ensures Q64 < TICK_RATIOS[k] < Q127
    ensures k + 1 < |TICK_RATIOS| ==>
              TICK_RATIOS[k] < TICK_RATIOS[k + 1] && TICK_RATIOS[k] * TICK_RATIOS[k] / Q64 <= TICK_RATIOS[k + 1]
  {
    RatiosGrowLow(k);
    RatiosGrowHigh(k);
  }

  lemma RatiosGrowLow(k: nat)
    requires k < |TICK_RATIOS|
    ensures Q64 < TICK_RATIOS[k] < Q127
    ensures k < 9 ==>
              TICK_RATIOS[k] < TICK_RATIOS[k + 1] && TICK_RATIOS[k] * TICK_RATIOS[k] / Q64 <= TICK_RATIOS[k + 1]
  {}

  lemma RatiosGrowHigh(k: nat)
    requires k < |TICK_RATIOS|
    ensures 9 <= k < 18 ==>
              TICK_RATIOS[k] < TICK_RATIOS[k + 1] && TICK_RATIOS[k] * TICK_RATIOS[k] / Q64 <= TICK_RATIOS[k + 1]
  {}

  /** Multiplying by a ratio of at least one and flooring is strictly increasing. */
  lemma ScaleStrict(a: nat, b: nat, ratio: nat)
    requires a < b && Q64 <= ratio
    ensures Scale(a, ratio) < Scale(b, ratio)
  {
    MulMonotone(ratio, a + 1, b);
    assert b * ratio >= a * ratio + Q64;
    DivMonotone(a * ratio + Q64, b * ratio, Q64);
  }

  lemma ScaleAtLeast(a: nat, ratio: nat)
    requires Q64 <= a
    ensures ratio <= Scale(a, ratio)
  {
    MulMonotone(ratio, Q64, a);
    DivMonotone(Q64 * ratio, a * ratio, Q64);
  }

  /** The accumulator never falls below one and stays below the next ratio: the product of
      all lower ratios is less than the next one. */
  lemma {:induction false} AccBounds(t: nat, k: nat)
    requires k <= |TICK_RATIOS|
    ensures Q64 <= Acc(t, k) < Q127
    ensures k < |TICK_RATIOS| ==> Acc(t, k) < TICK_RATIOS[k]
    decreases k
  {
    hide BitSet;
    if k == 0 {
      RatiosGrow(0);
    } else {
      AccBounds(t, k - 1);
      RatiosGrow(k - 1);
      var a, ratio := Acc(t, k - 1), TICK_RATIOS[k - 1];
      ScaleStrict(a, ratio, ratio);
      ScaleAtLeast(a, ratio);
      if k == |TICK_RATIOS| {
        assert Scale(ratio, ratio) < Q127;
      }
    }
  }

  lemma LowStep(t: nat, k: nat)
    ensures Low(t, k + 1) == Low(t, k) + if BitSet(t, k) then Pow2(k) else 0
    ensures Low(t, k) < Pow2(k)
  {
    var p := Pow2(k);
    var q := t / p;
    assert t == p * q + t % p;
    assert q == 2 * (q / 2) + q % 2;
    var low := t % p + (if q % 2 == 1 then p else 0);
    assert p * q == (2 * p) * (q / 2) + p * (q % 2);
    DivUnique(t, 2 * p, q / 2, low);
  }

  lemma LowZero(t: nat)
    ensures Low(t, 0) == 0
  {}

  /** One bit of the comparison: the higher bit decides, equal bits keep the order. */
  lemma StrictStep(a: nat, b: nat, low: nat, low': nat, bit: bool, bit': bool, ratio: nat, p: nat)
    requires Q64 <= a < ratio && Q64 <= b < ratio && low < p && low' < p
    requires (low < low' ==> a < b) && (low == low' ==> a == b) && (low' < low ==> b < a)
    ensures var x := if bit then Scale(a, ratio) else a;
            var y := if bit' then Scale(b, ratio) else b;
            var n := low + if bit then p else 0;
            var n' := low' + if bit' then p else 0;
            (n < n' ==> x < y) && (n == n' ==> x == y)
  {
    hide Scale;
    ScaleAtLeast(b, ratio);
    if a < b {
      ScaleStrict(a, b, ratio);
    }
  }

  /** The accumulator is strictly increasing in the number its bits make. */
  lemma {:induction false} AccStrict(t: nat, t': nat, k: nat)
    requires k <= |TICK_RATIOS|
    ensures Low(t, k) < Low(t', k) ==> Acc(t, k) < Acc(t', k)
    ensures Low(t, k) == Low(t', k) ==> Acc(t, k) == Acc(t', k)
    decreases k
  {
    hide BitSet, Low, Scale;
    if k == 0 {
      LowZero(t);
      LowZero(t');
    } else {
      AccStrict(t, t', k - 1);
      AccStrict(t', t, k - 1);
      LowStep(t, k - 1);
      LowStep(t', k - 1);
      AccBounds(t, k - 1);
      AccBounds(t', k - 1);
      StrictStep(Acc(t, k - 1), Acc(t', k - 1), Low(t, k - 1), Low(t', k - 1),
                 BitSet(t, k - 1), BitSet(t', k - 1), TICK_RATIOS[k - 1], Pow2(k - 1));
    }
  }

  // ---------------------------------------------------------------------
  // Price of a tick
  // ---------------------------------------------------------------------

  const TICKS: int := 0x8_0000  // 2^19: the ratios cover nineteen bits

  function Abs(tick: int): nat { if tick < 0 then -tick else tick }

  function Product(tick: int): nat {
    Acc(Abs(tick), |TICK_RATIOS|)
  }

  /** floor((2^128 - 1) / a) + 1. */
  function Reciprocal(a: nat): nat
    requires a > 0
  {
    (Q128 - 1) / a + 1
  }

  /** Drop 32 fraction bits and clamp to 1 .. 2^64 - 1. */
  function Narrow(acc: nat): (price: nat)
    ensures 1 <= price < Q64
  {
    var result := acc / Q32;
    if result == 0 then 1 else if result < Q64 then result else Q64 - 1
  }

  function SqrtPrice(tick: int): nat {
    AccBounds(Abs(tick), |TICK_RATIOS|);
    Narrow(if tick < 0 then Reciprocal(Product(tick)) else Product(tick))
  }

  /** No carry can occur at any step of the product. */
  lemma ExactHere(t: nat, k: nat)
    requires k < |TICK_RATIOS|
    ensures MulQ64(Acc(t, k), TICK_RATIOS[k]) == Scale(Acc(t, k), TICK_RATIOS[k])
  {
    hide MulQ64, BitSet, Acc;
    AccBounds(t, k);
    RatiosGrow(k);
    MulQ64Exact(Acc(t, k), TICK_RATIOS[k]);
  }

  /** `tick_to_sqrt_price`: every multiplication in the loop stays where `mul_q64` is exact. */
  method TickToSqrtPrice(tick: int) returns (price: nat)
    ensures price == SqrtPrice(tick)
  {
    hide MulQ64, BitSet;
    var absTick := if tick < 0 then -tick else tick;
    var acc := Q64;
    for k := 0 to |TICK_RATIOS|
      invariant acc == Acc(absTick, k)
    {
      if BitSet(absTick, k) {
        ExactHere(absTick, k);
        acc := MulQ64(acc, TICK_RATIOS[k]);
      }
    }
    AccBounds(absTick, |TICK_RATIOS|);
    if tick < 0 {
      acc := (Q128 - 1) / acc + 1;
    }
    var result := acc / Q32;
    if result == 0 {
      return 1;
    }
    price := if result < Q64 - 1 then result else Q64 - 1;
  }

  /** The negative branch is the reciprocal of the positive one, rounded up. */
  lemma ReciprocalIsCeiling(a: nat)
    requires a > 0
    ensures (Reciprocal(a) - 1) * a < Q128 <= Reciprocal(a) * a
  {
    var q := (Q128 - 1) / a;
    assert Q128 - 1 == a * q + (Q128 - 1) % a;
  }

  lemma ReciprocalAntitone(a: nat, b: nat)
    requires 0 < a <= b
    ensures Reciprocal(b) <= Reciprocal(a)
  {
    var q := (Q128 - 1) / b;
    DivBound(Q128 - 1, b, q);
    MulMonotone(q, a, b);
    DivBound(Q128 - 1, a, q);
  }

  lemma NarrowMonotone(a: nat, b: nat)
    requires a <= b
    ensures Narrow(a) <= Narrow(b)
  {
    DivMonotone(a, b, Q32);
  }

  lemma LowIsTick(t: nat)
    requires t < TICKS
    ensures Low(t, |TICK_RATIOS|) == t
  {
    assert Pow2(9) == 512;
    assert Pow2(19) == TICKS;
  }

  /** The unshifted product is strictly increasing over all non-negative ticks. */
  lemma ProductStrict(t: nat, t': nat)
    requires t < t' < TICKS
    ensures Product(t) < Product(t')
  {
    LowIsTick(t);
    LowIsTick(t');
    AccStrict(t, t', |TICK_RATIOS|);
  }

  /** The price is nondecreasing over all ticks the ratios cover. */
  lemma SqrtPriceMonotone(tick: int, tick': int)
    requires -TICKS < tick <= tick' < TICKS
    ensures SqrtPrice(tick) <= SqrtPrice(tick')
  {
    hide Acc, Reciprocal, Narrow;
    if tick == tick' {
      return;
    }
    var n := |TICK_RATIOS|;
    AccBounds(Abs(tick), n);
    AccBounds(Abs(tick'), n);
    var a, b := Product(tick), Product(tick');
    if tick' < 0 {
      ProductStrict(Abs(tick'), Abs(tick));
      ReciprocalAntitone(b, a);
      NarrowMonotone(Reciprocal(a), Reciprocal(b));
    } else if tick >= 0 {
      ProductStrict(tick, tick');
      NarrowMonotone(a, b);
    } else {
      ReciprocalAntitone(Q64, a);
      assert Reciprocal(Q64) == Q64 by {
        ReciprocalOfOne();
      }
      NarrowMonotone(Reciprocal(a), b);
    }
  }

  lemma ReciprocalOfOne()
    ensures Reciprocal(Q64) == Q64
  {}

  /** Past the nineteen bits the function starts over: the price depends only on the sign and on
      |tick| modulo 2^19. */
  lemma SqrtPriceWraps(t: int)
    requires t >= 0
    ensures SqrtPrice(t) == SqrtPrice(t % TICKS) && SqrtPrice(-t) == SqrtPrice(-(t % TICKS))
  {
    hide Acc, Narrow, Reciprocal;
    assert Pow2(9) == 512;
    assert Pow2(19) == TICKS;
    assert Low(t, 19) == Low(t % TICKS, 19);
    AccStrict(t, t % TICKS, 19);
    if t % TICKS == 0 {
      NoBits();
      ReciprocalOfOne();
    }
  }

  lemma NoBits()
    ensures Product(0) == Q64
  {
    hide Scale;
    LowIsTick(0);
    AccOfZero(|TICK_RATIOS|);
  }

  lemma {:induction false} AccOfZero(k: nat)
    requires k <= |TICK_RATIOS|
    ensures Acc(0, k) == Q64
    decreases k
  {
    hide BitSet, Scale;
    if k > 0 {
      AccOfZero(k - 1);
      NoBitSet(k - 1);
    }
  }

  lemma NoBitSet(k: nat)
    ensures !BitSet(0, k)
  {
    DivUnique(0, Pow2(k), 0, 0);
  }
}
