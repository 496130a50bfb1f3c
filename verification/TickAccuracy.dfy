/**
  How close the tick prices are to the powers of 1.00005 they stand for.
*/
module TickAccuracy {
  import opened Arithmetic
  import opened TickMath

  const BASE: real := 1.00005
  const ONE: real := Q64 as real  // one, in Q64.64

  /** 1.00005 to the power `n`. */
  ghost function Power(n: nat): (p: real)
    ensures p >= 1.0
  {
    if n == 0 then 1.0 else BASE * Power(n - 1)
  }

  lemma {:induction false} PowerAdd(m: nat, n: nat)
    ensures Power(m + n) == Power(m) * Power(n)
    decreases m
  {
    if m > 0 {
      PowerAdd(m - 1, n);
      RegroupProduct(BASE, Power(m - 1), Power(n));
    }
  }

  lemma RegroupProduct(x: real, y: real, z: real)
    ensures x * (y * z) == x * y * z
  {}

  // ---------------------------------------------------------------------
  // Each ratio is the floor of its power
  // ---------------------------------------------------------------------

  const FINE: nat := 0x1_0000_0000_0000_0000_0000_0000_0000_0000_0000_0000  // 2^160
  const COARSER: nat := 0x1_0000_0000_0000_0000_0000_0000  // 2^96 == FINE / Q64

  /** Lower and upper bounds of 1.00005^(2^k), scaled by 2^160: repeated squaring. */
  const LOWER: seq<nat> := [
    1461574712412769463349595016957918833806915339603,
    1461647791148390101822762496708766729748605685369,
    1461793959581624418703920027515343848193497370307,
    1462086340301181043428030151674151906606551636575,
    1462671277193580580998543703394817542151065217423,
    1463841853119122232823574878755807579866223701617,
    1466185816155921735638304176295720517121539426853,
    1470885007985855707213079395107724842919930610058,
    1480328623284125508124183912124134251300498723494,
    1499398137463816712951158701368351855120933567534,
    1538277287691428125528979752021594206869166242496,
    1619086118951460613439179456606357069798024554221,
    1793661938941622476694423469027473953931477578303,
    2201313408778206935983884985388584495083754465274,
    3315617718031732598614195628177308128699876106734,
    7521935365192426050991930528837372949912237423627,
    38713272837286723412797926583748330680525630173217,
    1025464122305921824569038180588999845122958495043173,
    719517952820852026366824065763485029799279119572979594
  ]

  const UPPER: seq<nat> := [
    1461574712412769463349595016957918833806915339604,
    1461647791148390101822762496708766729748605685372,
    1461793959581624418703920027515343848193497370314,
    1462086340301181043428030151674151906606551636590,
    1462671277193580580998543703394817542151065217454,
    1463841853119122232823574878755807579866223701680,
    1466185816155921735638304176295720517121539426980,
    1470885007985855707213079395107724842919930610313,
    1480328623284125508124183912124134251300498724008,
    1499398137463816712951158701368351855120933568576,
    1538277287691428125528979752021594206869166244635,
    1619086118951460613439179456606357069798024558725,
    1793661938941622476694423469027473953931477588283,
    2201313408778206935983884985388584495083754489771,
    3315617718031732598614195628177308128699876180530,
    7521935365192426050991930528837372949912237758461,
    38713272837286723412797926583748330680525633619809,
    1025464122305921824569038180588999845122958677634631,
    719517952820852026366824065763485029799279375803947028
  ]

  function Lower(k: nat): nat
    requires k < 19
  {
    LOWER[k]
  }

  function Upper(k: nat): nat
    requires k < 19
  {
    UPPER[k]
  }

  lemma SquareBounds(low: real, high: real, fine: real, p: real, low': real, high': real)
    requires 0.0 <= low <= fine * p <= high && fine > 0.0
    requires low' * fine <= low * low && high * high <= high' * fine
    ensures low' <= fine * (p * p) <= high'
  {
    var x := fine * p;
    assert low * low <= x * x <= high * high;
    assert x * x == fine * (p * p) * fine;
  }

  lemma BoundsStep(k: nat)
    requires k < 18
    ensures Lower(k + 1) * FINE <= Lower(k) * Lower(k)
    ensures Upper(k) * Upper(k) <= Upper(k + 1) * FINE
  {}

  lemma RealProduct(x: nat, y: nat)
    ensures (x * y) as real == (x as real) * (y as real)
  {}

  /** One squaring, from integer bounds. */
  lemma EnclosedStep(p: real, l: nat, u: nat, l': nat, u': nat)
    requires l as real <= FINE as real * p <= u as real
    requires l' * FINE <= l * l && u * u <= u' * FINE
    ensures l' as real <= FINE as real * (p * p) <= u' as real
  {
    RealProduct(l, l);
    RealProduct(u, u);
    RealProduct(l', FINE);
    RealProduct(u', FINE);
    SquareBounds(l as real, u as real, FINE as real, p, l' as real, u' as real);
  }

  lemma EnclosedBase()
    ensures Lower(0) as real <= FINE as real * Power(Pow2(0)) <= Upper(0) as real
  {
    assert Power(1) == BASE * Power(0);
  }

  lemma {:induction false} Enclosed(k: nat)
    requires k < 19
    ensures Lower(k) as real <= FINE as real * Power(Pow2(k)) <= Upper(k) as real
    decreases k
  {
    hide Power, Lower, Upper;
    if k == 0 {
      EnclosedBase();
    } else {
      Enclosed(k - 1);
      PowerAdd(Pow2(k - 1), Pow2(k - 1));
      BoundsStep(k - 1);
      EnclosedStep(Power(Pow2(k - 1)), Lower(k - 1), Upper(k - 1), Lower(k), Upper(k));
    }
  }

  lemma RatioBounds(k: nat)
    requires k < 19
    ensures TICK_RATIOS[k] * COARSER <= Lower(k)
    ensures Upper(k) < (TICK_RATIOS[k] + 1) * COARSER
  {}

  lemma FloorFromBounds(p: real, l: nat, u: nat, ratio: nat)
    requires l as real <= FINE as real * p <= u as real
    requires ratio * COARSER <= l && u < (ratio + 1) * COARSER
    ensures ratio as real <= ONE * p < ratio as real + 1.0
  {
    RealProduct(ratio, COARSER);
    RealProduct(ratio + 1, COARSER);
    var c := COARSER as real;
    assert FINE as real * p == c * (ONE * p);
    assert c * (ratio as real) <= c * (ONE * p) < c * ((ratio + 1) as real);
  }

  /** Entry `k` of the table is floor(2^64 * 1.00005^(2^k)), for all nineteen entries. */
  lemma RatioIsFloor(k: nat)
    requires k < |TICK_RATIOS|
    ensures TICK_RATIOS[k] as real <= ONE * Power(Pow2(k)) < TICK_RATIOS[k] as real + 1.0
  {
    hide Power, Lower, Upper;
    Enclosed(k);
    RatioBounds(k);
    FloorFromBounds(Power(Pow2(k)), Lower(k), Upper(k), TICK_RATIOS[k]);
  }

  // ---------------------------------------------------------------------
  // The product is close to the power, from below
  // ---------------------------------------------------------------------

  /** What `n` units of relative error 2^-64 leave of `x`. */
  function Less(x: real, n: nat): real {
    x * (1.0 - n as real / ONE)
  }

  /** `a` is at most `p` and short of it by at most `n` units, in Q64.64. */
  ghost predicate Close(a: nat, p: real, n: nat) {
    Less(ONE * p, n) <= a as real <= ONE * p
  }

  lemma FloorLoss(x: nat)
    ensures (x / Q64) as real <= x as real / ONE
    ensures x as real / ONE - 1.0 < (x / Q64) as real
  {
    var q, r := x / Q64, x % Q64;
    assert x == Q64 * q + r;
    RealProduct(Q64, q);
    assert x as real == ONE * (q as real) + r as real;
    assert x as real / ONE == q as real + r as real / ONE;
  }

  /** One multiplication loses at most two units: one for the ratio, one for the floor. */
  lemma ScaleError(a: nat, p: real, ratio: nat, q: real, n: nat)
    requires p >= 1.0 && q >= 1.0 && n <= 36
    requires Close(a, p, n)
    requires ratio as real <= ONE * q < ratio as real + 1.0
    ensures Close(Scale(a, ratio), p * q, n + 2)
  {
    var x, y := a as real, ratio as real;
    RealProduct(a, ratio);
    FloorLoss(a * ratio);
    ScaleAbove(x, y, p, q);
    ScaleBelow(x, y, p, q, n);
  }

  lemma ScaleAbove(x: real, y: real, p: real, q: real)
    requires 0.0 <= x <= ONE * p && 0.0 <= y <= ONE * q && p >= 1.0 && q >= 1.0
    ensures x * y / ONE <= ONE * (p * q)
  {
    assert x * y <= (ONE * p) * y;
    assert (ONE * p) * y <= (ONE * p) * (ONE * q);
    assert (ONE * p) * (ONE * q) == ONE * (ONE * (p * q));
  }

  lemma ScaleBelow(x: real, y: real, p: real, q: real, n: nat)
    requires p >= 1.0 && q >= 1.0 && n <= 36
    requires Less(ONE * p, n) <= x && ONE * q - 1.0 < y
    ensures Less(ONE * (p * q), n + 2) <= x * y / ONE - 1.0
  {
    var e := 1.0 / ONE;
    var d := 1.0 - n as real * e;
    assert d >= 0.5;
    assert Less(ONE * p, n) == ONE * p * d;
    assert y >= ONE * q * (1.0 - e);
    var z := ONE * (p * q);
    assert x * y >= (ONE * p * d) * (ONE * q * (1.0 - e));
    assert (ONE * p * d) * (ONE * q * (1.0 - e)) == ONE * (z * (d * (1.0 - e)));
    assert x * y / ONE >= z * (d * (1.0 - e));
    assert d * (1.0 - e) >= d - e;
    assert p * q >= 1.0;
    assert z * e >= 1.0;
    assert z * (d - e) - 1.0 >= z * (d - e - e);
  }

  lemma CloseStart()
    ensures Close(Q64, Power(0), 0)
  {}

  lemma CloseStill(a: nat, p: real, n: nat)
    requires p >= 1.0 && Close(a, p, n)
    ensures Close(a, p, n + 2)
  {}

  lemma CloseBit(a: nat, low: nat, k: nat)
    requires k < |TICK_RATIOS| && Close(a, Power(low), 2 * k)
    ensures Close(Scale(a, TICK_RATIOS[k]), Power(low + Pow2(k)), 2 * k + 2)
  {
    hide Power, Close, Scale, Less;
    PowerAdd(low, Pow2(k));
    RatioIsFloor(k);
    ScaleError(a, Power(low), TICK_RATIOS[k], Power(Pow2(k)), 2 * k);
  }

  lemma {:induction false} AccAccurate(t: nat, k: nat)
    requires k <= |TICK_RATIOS|
    ensures Close(Acc(t, k), Power(Low(t, k)), 2 * k)
    decreases k
  {
    hide Power, BitSet, Low, Scale, Close, Pow2;
    if k == 0 {
      LowZero(t);
      CloseStart();
    } else {
      AccAccurate(t, k - 1);
      LowStep(t, k - 1);
      if BitSet(t, k - 1) {
        CloseBit(Acc(t, k - 1), Low(t, k - 1), k - 1);
      } else {
        CloseStill(Acc(t, k - 1), Power(Low(t, k - 1)), 2 * (k - 1));
      }
    }
  }

  /** For every tick from 0 to 2^19 - 1 the product is at most 2^64 * 1.00005^tick, and short of
      it by a relative error of at most 38 / 2^64. */
  lemma ProductAccurate(tick: nat)
    requires tick < TICKS
    ensures ONE * Power(tick) * (1.0 - 38.0 / ONE) <= Product(tick) as real <= ONE * Power(tick)
  {
    hide Power, Acc, Low;
    LowIsTick(tick);
    assert 2 * |TICK_RATIOS| == 38;
    AccAccurate(tick, |TICK_RATIOS|);
  }

  /** Neighbouring products are at least 2^32 apart, so no two non-negative ticks below the
      clamp share a price. */
  lemma ProductGap(tick: nat)
    requires tick + 1 < TICKS
    ensures Product(tick + 1) >= Product(tick) + Q32
  {
    hide Acc;
    ProductAccurate(tick);
    ProductAccurate(tick + 1);
    GapOf(Power(tick), Product(tick) as real, Product(tick + 1) as real);
  }

  lemma GapOf(p: real, x: real, y: real)
    requires p >= 1.0 && x <= ONE * p && y >= ONE * (BASE * p) * (1.0 - 38.0 / ONE)
    ensures y >= x + Q32 as real
  {
    assert ONE * (BASE * p) * (1.0 - 38.0 / ONE) == p * (BASE * (ONE - 38.0));
    assert p * (BASE * (ONE - 38.0)) - p * ONE == p * (BASE * (ONE - 38.0) - ONE);
    assert BASE * (ONE - 38.0) - ONE >= Q32 as real;
  }

  /** The price of a non-negative tick is strictly increasing until it reaches the clamp. */
  lemma SqrtPriceStrict(tick: nat, tick': nat)
    requires tick < tick' < TICKS && SqrtPrice(tick') < Q64 - 1
    ensures SqrtPrice(tick) < SqrtPrice(tick')
  {
    hide Acc;
    AccBounds(tick, |TICK_RATIOS|);
    ProductGap(tick);
    if tick + 1 < tick' {
      ProductStrict(tick + 1, tick');
    }
    NarrowGap(Product(tick), Product(tick'));
  }

  lemma NarrowGap(a: nat, b: nat)
    requires b >= a + Q32 && a >= Q32 && Narrow(b) < Q64 - 1
    ensures Narrow(a) < Narrow(b)
  {}

  /** So at 2^19, where it starts over, the price falls. */
  lemma SqrtPriceDrops()
    ensures SqrtPrice(TICKS) == SqrtPrice(0) < SqrtPrice(TICKS - 1)
  {
    hide Acc, Narrow;
    SqrtPriceWraps(TICKS);
    SqrtPriceMonotone(1, TICKS - 1);
    FirstPrices();
  }

  lemma FirstPrices()
    ensures SqrtPrice(0) < SqrtPrice(1)
  {
    hide Acc;
    NoBits();
    ProductGap(0);
    NarrowMonotone(Product(0) + Q32, Product(1));
    assert Narrow(Q64) < Narrow(Q64 + Q32);
  }

  /** The price of a non-negative tick is 2^32 * 1.00005^tick rounded down, short by at most forty
      units in the last place unless it is clamped. */
  lemma SqrtPriceAccurate(tick: nat)
    requires tick < TICKS
    ensures SqrtPrice(tick) as real <= Q32 as real * Power(tick)
    ensures SqrtPrice(tick) < Q64 - 1 ==> SqrtPrice(tick) as real >= Q32 as real * Power(tick) - 40.0
  {
    hide Acc, Power;
    AccBounds(tick, |TICK_RATIOS|);
    ProductAccurate(tick);
    NarrowBounds(Product(tick), SqrtPrice(tick));
    PriceAbove(Product(tick) as real, SqrtPrice(tick) as real, Power(tick));
    if SqrtPrice(tick) < Q64 - 1 {
      PriceError(Product(tick) as real, SqrtPrice(tick) as real, Power(tick));
    }
  }

  lemma NarrowBounds(acc: nat, price: nat)
    requires acc >= Q32 && price == Narrow(acc)
    ensures price * Q32 <= acc && (price < Q64 - 1 ==> acc < (price + 1) * Q32)
  {}

  lemma PriceAbove(acc: real, price: real, p: real)
    requires acc <= ONE * p && price * Q32 as real <= acc
    ensures price <= Q32 as real * p
  {
    var q := Q32 as real;
    assert q * (q * p) == ONE * p;
  }

  lemma PriceError(acc: real, price: real, p: real)
    requires ONE * p * (1.0 - 38.0 / ONE) <= acc && p >= 1.0
    requires price * Q32 as real <= acc <= (price + 1.0) * Q32 as real && price <= ONE
    ensures Q32 as real * p - 40.0 <= price
  {
    var q := Q32 as real;
    assert q * q == ONE;
    assert ONE * p * (1.0 - 38.0 / ONE) == ONE * p - 38.0 * p;
    assert q * (q * p) == ONE * p;
    assert p <= q * 1.01;
  }

  // ---------------------------------------------------------------------
  // The exact floor
  // ---------------------------------------------------------------------

  /** An unclamped price is below the exact one by less than a unit for its own rounding and
      38 * 1.00005^tick / 2^32 for that of the factors. */
  lemma PriceShortfall(tick: nat)
    requires tick < TICKS && SqrtPrice(tick) < Q64 - 1
    ensures Q32 as real * Power(tick) - SqrtPrice(tick) as real < 1.0 + 38.0 * Power(tick) / Q32 as real
  {
    hide Acc, Power;
    AccBounds(tick, |TICK_RATIOS|);
    ProductAccurate(tick);
    NarrowBounds(Product(tick), SqrtPrice(tick));
    ShortfallOf(Product(tick) as real, SqrtPrice(tick) as real, Power(tick));
  }

  lemma ShortfallOf(acc: real, price: real, p: real)
    requires ONE * p * (1.0 - 38.0 / ONE) <= acc < (price + 1.0) * Q32 as real
    ensures Q32 as real * p - price < 1.0 + 38.0 * p / Q32 as real
  {
    var q := Q32 as real;
    assert ONE * p * (1.0 - 38.0 / ONE) == q * (q * p) - 38.0 * p;
    assert q * (38.0 * p / q) == 38.0 * p;
    assert q * (q * p - 38.0 * p / q) < q * (price + 1.0);
  }

  /** Where the exact price is not within 38 * 1.00005^tick / 2^32 above a whole number, a
      non-negative tick's price is its exact floor, or the clamp below it. */
  lemma FloorReached(tick: nat, floor: nat)
    requires tick < TICKS
    requires floor as real + 38.0 * Power(tick) / Q32 as real <= Q32 as real * Power(tick) < floor as real + 1.0
    ensures SqrtPrice(tick) == if floor < Q64 then floor else Q64 - 1
  {
    hide Acc, Power;
    SqrtPriceAccurate(tick);
    if SqrtPrice(tick) < Q64 - 1 {
      PriceShortfall(tick);
    }
  }

  /** Bits that are not set leave the accumulator alone. */
  lemma {:induction false} HighBits(t: nat, k: nat, n: nat)
    requires t < Pow2(k) && k <= n <= |TICK_RATIOS|
    ensures Acc(t, n) == Acc(t, k) && t < Pow2(n)
    decreases n
  {
    hide BitSet, Scale;
    if k < n {
      HighBits(t, k, n - 1);
      AboveTop(t, n - 1);
    }
  }

  lemma AboveTop(t: nat, k: nat)
    requires t < Pow2(k)
    ensures !BitSet(t, k)
  {
    DivUnique(t, Pow2(k), 0, t);
  }

  const MISSED: nat := 393220  // 2^18 + 2^17 + 2^2

  lemma MissedBits()
    ensures Pow2(2) == 4 && Pow2(3) == 8 && Pow2(17) == 131072 && Pow2(18) == 262144
    ensures BitSet(4, 2) && BitSet(MISSED, 17) && BitSet(MISSED, 18)
    ensures Low(4, 2) == Low(0, 2) && Low(MISSED, 17) == Low(4, 17)
  {
    assert Pow2(9) == 512;
    assert Pow2(17) == 131072;
  }

  lemma MissedProduct()
    ensures Product(MISSED) == 6373383793926048517453274805
  {
    hide BitSet, Low, Scale;
    MissedBits();
    AccOfZero(2);
    AccStrict(4, 0, 2);
    HighBits(4, 3, 17);
    AccStrict(MISSED, 4, 17);
    MissedScales();
    assert Acc(4, 3) == Scale(Q64, TICK_RATIOS[2]);
    assert Acc(MISSED, 18) == Scale(Acc(MISSED, 17), TICK_RATIOS[17]);
  }

  lemma MissedScales()
    ensures Scale(Q64, TICK_RATIOS[2]) == TICK_RATIOS[2]
    ensures Scale(TICK_RATIOS[2], TICK_RATIOS[17]) == 12945765722235383274321
    ensures Scale(12945765722235383274321, TICK_RATIOS[18]) == 6373383793926048517453274805
  {}

  lemma MissedPower()
    ensures Q32 as real * Power(MISSED) >= 1483919050992943467 as real
  {
    hide Power, Lower;
    MissedBits();
    Enclosed(2);
    Enclosed(17);
    Enclosed(18);
    PowerAdd(4, 131072);
    PowerAdd(131076, 262144);
    MissedBounds();
    ThreeFactors(Power(4), Power(131072), Power(262144), Lower(2), Lower(17), Lower(18), 1483919050992943467);
  }

  lemma MissedBounds()
    ensures 1483919050992943467 * FINE * FINE * FINE <= Lower(2) * Lower(17) * Lower(18) * Q32
  {}

  lemma ThreeFactors(p: real, q: real, r: real, l: nat, m: nat, n: nat, least: nat)
    requires l as real <= FINE as real * p && m as real <= FINE as real * q && n as real <= FINE as real * r
    requires p >= 1.0 && q >= 1.0 && r >= 1.0 && least * FINE * FINE * FINE <= l * m * n * Q32
    ensures Q32 as real * (p * q * r) >= least as real
  {
    var f := FINE as real;
    RealProduct(l, m);
    RealProduct(l * m, n);
    RealProduct(l * m * n, Q32);
    RealProduct(least, FINE);
    RealProduct(least * FINE, FINE);
    RealProduct(least * FINE * FINE, FINE);
    TimesBoth(l as real, f * p, m as real, f * q);
    TimesBoth(l as real * m as real, f * p * (f * q), n as real, f * r);
    assert f * p * (f * q) * (f * r) == f * f * f * (p * q * r);
    assert f * f * f * (Q32 as real * (p * q * r)) >= f * f * f * least as real;
  }

  lemma TimesBoth(a: real, b: real, c: real, d: real)
    requires 0.0 <= a <= b && 0.0 <= c <= d
    ensures 0.0 <= a * c <= b * d
  {
    Times(c, a, b);
    Times(b, c, d);
  }

  /** The comment's floor is missed at tick 393220, by one unit. */
  lemma FloorMissed()
    ensures SqrtPrice(MISSED) == 1483919050992943466
    ensures Q32 as real * Power(MISSED) >= SqrtPrice(MISSED) as real + 1.0
  {
    hide Acc, Power;
    MissedProduct();
    MissedPower();
  }

  // ---------------------------------------------------------------------
  // Negative ticks
  // ---------------------------------------------------------------------

  /** The price of a negative tick is within one unit of 2^32 / 1.00005^|tick|. */
  lemma NegativePriceAccurate(tick: int)
    requires 0 < tick < TICKS
    ensures Q32 as real / Power(tick) - 1.0 < SqrtPrice(-tick) as real <= Q32 as real / Power(tick) + 1.0
  {
    hide Acc, Power, Reciprocal, Narrow;
    AccBounds(tick, |TICK_RATIOS|);
    ProductAccurate(tick);
    ReciprocalPrice(Product(tick), SqrtPrice(-tick), Power(tick));
  }

  lemma ReciprocalPrice(a: nat, price: nat, p: real)
    requires a >= Q64 && p >= 1.0 && price == Narrow(Reciprocal(a))
    requires ONE * p * (1.0 - 38.0 / ONE) <= a as real <= ONE * p
    ensures Q32 as real / p - 1.0 < price as real <= Q32 as real / p + 1.0
  {
    hide Reciprocal, Narrow;
    ReciprocalIsCeiling(a);
    var r := Reciprocal(a);
    ReciprocalSmall(a, r);
    ReciprocalNarrow(r, price);
    AsReals(a, r, price);
    PriceBelow(a as real, r as real, price as real, p);
    if price > 1 {
      PriceNotAbove(a as real, r as real, price as real, p);
    }
    Quotient(price as real, p);
  }

  lemma ReciprocalSmall(a: nat, r: nat)
    requires a >= Q64 && (r - 1) * a < Q128 <= r * a
    ensures 1 <= r <= Q64
  {
    if r > Q64 {
      MulMonotone(r - 1, Q64, a);
    }
  }

  lemma ReciprocalNarrow(r: nat, price: nat)
    requires 1 <= r <= Q64 && price == Narrow(r)
    ensures r < (price + 1) * Q32 && (price > 1 ==> price * Q32 <= r)
  {}

  /** Where the exact price of a negative tick is not within 40 / 2^32 below a whole number, its
      price is the exact floor of it, if that is not 0. */
  lemma NegativeFloorReached(tick: int, floor: nat)
    requires 0 < tick < TICKS && floor > 0
    requires floor as real <= Q32 as real / Power(tick) <= floor as real + 1.0 - 40.0 / Q32 as real
    ensures SqrtPrice(-tick) == floor
  {
    hide Acc, Power, Reciprocal, Narrow;
    AccBounds(tick, |TICK_RATIOS|);
    ProductAccurate(tick);
    ReciprocalFloor(Product(tick), SqrtPrice(-tick), Power(tick), floor);
  }

  lemma ReciprocalFloor(a: nat, price: nat, p: real, floor: nat)
    requires a >= Q64 && p >= 1.0 && price == Narrow(Reciprocal(a)) && floor > 0
    requires ONE * p * (1.0 - 38.0 / ONE) <= a as real <= ONE * p
    requires floor as real <= Q32 as real / p <= floor as real + 1.0 - 40.0 / Q32 as real
    ensures price == floor
  {
    hide Reciprocal, Narrow;
    ReciprocalIsCeiling(a);
    var r := Reciprocal(a);
    ReciprocalSmall(a, r);
    ReciprocalNarrow(r, price);
    AsReals(a, r, price);
    PriceBelow(a as real, r as real, price as real, p);
    Whole(price as real, p, floor as real);
    if price > floor {
      NotPastFloor(a as real, r as real, price as real, p, floor as real);
    }
  }

  lemma Whole(price: real, p: real, floor: real)
    requires p >= 1.0 && Q32 as real < (price + 1.0) * p && floor <= Q32 as real / p
    ensures floor < price + 1.0
  {
    assert Q32 as real / p * p == Q32 as real;
    if floor >= price + 1.0 {
      Times(p, price + 1.0, Q32 as real / p);
    }
  }

  lemma NotPastFloor(a: real, r: real, price: real, p: real, floor: real)
    requires a >= ONE * p * (1.0 - 38.0 / ONE) && p >= 1.0 && (r - 1.0) * a < ONE * ONE
    requires floor >= 1.0 && Q32 as real / p <= floor + 1.0 - 40.0 / Q32 as real && price * Q32 as real <= r
    ensures price < floor + 1.0
  {
    var q := Q32 as real;
    var x := (floor + 1.0) * q - 1.0;
    assert q / p * p == q;
    Times(p, q / p, floor + 1.0 - 40.0 / q);
    assert q * (p * (floor + 1.0 - 40.0 / q)) == (x + 1.0) * p - 40.0 * p;
    assert x * p >= ONE + 39.0;
    assert ONE * p * (1.0 - 38.0 / ONE) == p * (ONE - 38.0);
    Times(x, p * (ONE - 38.0), a);
    Times(ONE - 38.0, ONE + 39.0, x * p);
    assert x * (p * (ONE - 38.0)) == (ONE - 38.0) * (x * p);
    if price >= floor + 1.0 {
      Times(a, x, r - 1.0);
    }
  }

  lemma AsReals(a: nat, r: nat, price: nat)
    requires (r - 1) * a < Q128 <= r * a && r < (price + 1) * Q32
    ensures (r as real - 1.0) * a as real < ONE * ONE <= r as real * a as real
    ensures r as real < (price as real + 1.0) * Q32 as real
    ensures price * Q32 <= r ==> price as real * Q32 as real <= r as real
  {
    IntProduct(r - 1, a);
    IntProduct(r, a);
  }

  lemma IntProduct(x: int, y: int)
    ensures (x * y) as real == x as real * y as real
  {}

  lemma PriceBelow(a: real, r: real, price: real, p: real)
    requires 0.0 < a <= ONE * p && p >= 1.0 && ONE * ONE <= r * a && 0.0 < r < (price + 1.0) * Q32 as real
    ensures Q32 as real < (price + 1.0) * p
  {
    var q := Q32 as real;
    Times(r, a, ONE * p);
    assert r * (ONE * p) == ONE * (r * p);
    assert ONE <= r * p;
    assert r * p < (price + 1.0) * q * p;
    assert (price + 1.0) * q * p == q * ((price + 1.0) * p);
    assert q * q == ONE;
  }

  lemma Times(k: real, x: real, y: real)
    requires k >= 0.0 && x <= y
    ensures k * x <= k * y
  {}

  lemma PriceNotAbove(a: real, r: real, price: real, p: real)
    requires a >= ONE * p * (1.0 - 38.0 / ONE) && p >= 1.0 && (r - 1.0) * a < ONE * ONE
    requires price > 1.0 && price * Q32 as real <= r
    ensures (price - 1.0) * p <= Q32 as real
  {
    var q, u := Q32 as real, price - 1.0;
    var x := u * q + (q - 1.0);
    assert x <= r - 1.0 && x > 0.0;
    assert ONE * p * (1.0 - 38.0 / ONE) == p * (ONE - 38.0);
    Times(x, p * (ONE - 38.0), a);
    Times(a, x, r - 1.0);
    if u * p > q {
      assert x * p == q * (u * p) + (q - 1.0) * p;
      Times(q, q, u * p);
      Times(q - 1.0, 1.0, p);
      assert x * p >= q * q + (q - 1.0);
      Times(ONE - 38.0, q * q + (q - 1.0), x * p);
      assert x * (p * (ONE - 38.0)) == (ONE - 38.0) * (x * p);
    }
  }

  lemma Quotient(price: real, p: real)
    requires p >= 1.0 && Q32 as real < (price + 1.0) * p && (price > 1.0 ==> (price - 1.0) * p <= Q32 as real)
    requires price >= 1.0
    ensures Q32 as real / p - 1.0 < price <= Q32 as real / p + 1.0
  {
    var d := Q32 as real / p;
    assert d * p == Q32 as real;
    if price - 1.0 > d {
      Times(p, d, price - 1.0);
    }
    if d >= price + 1.0 {
      Times(p, price + 1.0, d);
    }
  }

  /** Where 2^32 / 1.00005^|tick| is below one, the price is one. */
  lemma SmallestPrice(tick: int)
    requires 0 < tick < TICKS && Power(tick) > Q32 as real
    ensures SqrtPrice(-tick) == 1
  {
    hide Acc, Power;
    NegativePriceAccurate(tick);
    assert Q32 as real / Power(tick) < 1.0;
  }
}
