/**
  Liquidity of a concentrated position and the amounts it pulls, in Q32.32 square-root
  prices, and what becomes of a deposit that is pulled back.
*/
module Liquidity {
  import opened Arithmetic
  import opened Bytes
  import opened TickMath

  /** The price range of a position and the pool's current price. */
  datatype Band = Band(lower: nat, upper: nat, current: nat)

  predicate InRange(p: Band) { p.lower < p.current < p.upper }

  function Larger(a: nat, b: nat): nat { if a > b then a else b }

  function Smaller(a: nat, b: nat): nat { if a < b then a else b }

  /** The part of the range above the current price, which token A covers. */
  function FromPrice(p: Band): nat { Larger(p.current, p.lower) }

  function DeltaA(p: Band): nat
    requires p.current < p.upper && p.lower < p.upper
    ensures DeltaA(p) > 0
  {
    p.upper - FromPrice(p)
  }

  /** The part below it, which token B covers. */
  function DeltaB(p: Band): nat
    requires p.lower < p.current && p.lower < p.upper
    ensures DeltaB(p) > 0
  {
    Smaller(p.current, p.upper) - p.lower
  }

  function Area(p: Band): nat { FromPrice(p) * p.upper }

  function Denom(p: Band): nat { Area(p) / Q32 }

  /** floor(a * b / d). */
  function MulDiv(a: nat, b: nat, d: nat): nat
    requires d > 0
  {
    a * b / d
  }

  // ---------------------------------------------------------------------
  // The two conversions
  // ---------------------------------------------------------------------

  function LiquidityA(amount: nat, p: Band): nat
    requires p.lower < p.upper
  {
    if p.current >= p.upper then 0 else MulDiv(amount, Area(p), DeltaA(p) * Q32)
  }

  function LiquidityB(amount: nat, p: Band): nat
    requires p.lower < p.upper
  {
    if p.current <= p.lower then 0 else MulDiv(amount, Q32, DeltaB(p))
  }

  /** `compute_liquidity`: the smaller side, but a side that comes out zero is ignored. */
  function ComputeLiquidity(amountA: nat, amountB: nat, p: Band): nat {
    if p.lower >= p.upper || (amountA == 0 && amountB == 0) then 0
    else
      var a, b := LiquidityA(amountA, p), LiquidityB(amountB, p);
      if a == 0 then b else if b == 0 then a else Smaller(a, b)
  }

  function AmountA(liquidity: nat, p: Band): nat {
    if liquidity == 0 || p.lower >= p.upper || p.current >= p.upper || Denom(p) == 0 then 0
    else MulDiv(liquidity, DeltaA(p), Denom(p))
  }

  function AmountB(liquidity: nat, p: Band): nat {
    if liquidity == 0 || p.lower >= p.upper || p.current <= p.lower then 0
    else MulDiv(liquidity, DeltaB(p), Q32)
  }

  /** `compute_amounts_from_liquidity`. */
  function ComputeAmounts(liquidity: nat, p: Band): (nat, nat) {
    (AmountA(liquidity, p), AmountB(liquidity, p))
  }

  // ---------------------------------------------------------------------
  // What the conversions compute
  // ---------------------------------------------------------------------

  /** Where the part of the range that token A covers begins. */
  function Start(p: Band): nat { if p.current < p.lower then p.lower else p.current }

  /** Where the part that token B covers ends. */
  function End(p: Band): nat { if p.current < p.upper then p.current else p.upper }

  /** `amount` of A pays for `liquidity` over the part above the current price, 2^32 being one. */
  predicate PaysA(amount: nat, liquidity: nat, p: Band) {
    p.current < p.upper && liquidity * ((p.upper - Start(p)) * Q32) <= amount * (Start(p) * p.upper)
  }

  /** `amount` of B pays for it over the part below. */
  predicate PaysB(amount: nat, liquidity: nat, p: Band) {
    p.lower < p.current && liquidity * (End(p) - p.lower) <= amount * Q32
  }

  /** Each side buys the greatest liquidity it pays for. */
  lemma SidesAreGreatest(amount: nat, liquidity: nat, p: Band)
    requires p.lower < p.upper
    ensures liquidity <= LiquidityA(amount, p) <==> liquidity == 0 || PaysA(amount, liquidity, p)
    ensures liquidity <= LiquidityB(amount, p) <==> liquidity == 0 || PaysB(amount, liquidity, p)
  {
    if p.current < p.upper {
      DivBound(amount * Area(p), DeltaA(p) * Q32, liquidity);
    }
    if p.lower < p.current {
      DivBound(amount * Q32, DeltaB(p), liquidity);
    }
  }

  /** A deposit buys the greatest liquidity that both sides pay for; a side that does not even pay
      for one unit is left aside, and the other alone decides. */
  lemma LiquidityIsGreatest(amountA: nat, amountB: nat, liquidity: nat, p: Band)
    requires liquidity > 0
    ensures liquidity <= ComputeLiquidity(amountA, amountB, p) <==>
            && p.lower < p.upper
            && if PaysA(amountA, 1, p) && PaysB(amountB, 1, p)
               then PaysA(amountA, liquidity, p) && PaysB(amountB, liquidity, p)
               else PaysA(amountA, liquidity, p) || PaysB(amountB, liquidity, p)
  {
    hide PaysA, PaysB, LiquidityA, LiquidityB;
    if p.lower < p.upper {
      SidesAreGreatest(amountA, liquidity, p);
      SidesAreGreatest(amountB, liquidity, p);
      SidesAreGreatest(amountA, 1, p);
      SidesAreGreatest(amountB, 1, p);
      if amountA == 0 && amountB == 0 {
        NothingPays(liquidity, p);
      }
    }
  }

  lemma NothingPays(liquidity: nat, p: Band)
    requires liquidity > 0 && p.lower < p.upper
    ensures !PaysA(0, liquidity, p) && !PaysB(0, liquidity, p)
  {
    if p.current < p.upper {
      MulMonotone((p.upper - Start(p)) * Q32, 1, liquidity);
    }
    if p.lower < p.current {
      MulMonotone(End(p) - p.lower, 1, liquidity);
    }
  }

  /** `amount` of A is covered by `liquidity`, by the rounded product of the two prices. */
  predicate CoversA(liquidity: nat, amount: nat, p: Band) {
    && p.lower < p.upper && p.current < p.upper && Start(p) * p.upper >= Q32
    && amount * (Start(p) * p.upper / Q32) <= liquidity * (p.upper - Start(p))
  }

  predicate CoversB(liquidity: nat, amount: nat, p: Band) {
    p.lower < p.upper && p.lower < p.current && amount * Q32 <= liquidity * (End(p) - p.lower)
  }

  /** A position pulls the greatest amounts its liquidity covers. */
  lemma AmountsAreGreatest(liquidity: nat, amount: nat, p: Band)
    requires amount > 0
    ensures amount <= AmountA(liquidity, p) <==> CoversA(liquidity, amount, p)
    ensures amount <= AmountB(liquidity, p) <==> CoversB(liquidity, amount, p)
  {
    DivBound(Area(p), Q32, 1);
    if p.lower < p.upper && p.current < p.upper && Denom(p) > 0 {
      DivBound(liquidity * DeltaA(p), Denom(p), amount);
      MulMonotone(Denom(p), 1, amount);
    }
    if p.lower < p.upper && p.lower < p.current {
      DivBound(liquidity * DeltaB(p), Q32, amount);
    }
  }

  // ---------------------------------------------------------------------
  // Depositing and pulling back
  // ---------------------------------------------------------------------

  /** Liquidity bought with B never pulls more B. */
  lemma SideBRespected(amount: nat, p: Band, liquidity: nat)
    requires p.lower < p.upper && p.lower < p.current
    requires liquidity <= LiquidityB(amount, p)
    ensures AmountB(liquidity, p) <= amount
  {
    var d := DeltaB(p);
    DivBound(amount * Q32, d, liquidity);
    DivMonotone(liquidity * d, amount * Q32, Q32);
  }

  /** Liquidity bought with A pulls at most a `1 / denom` part more A, from the rounding of
      the denominator. */
  lemma SideARespected(amount: nat, p: Band, liquidity: nat)
    requires p.lower < p.upper && p.current < p.upper && amount > 0
    requires liquidity <= LiquidityA(amount, p)
    ensures (AmountA(liquidity, p) - amount) * Denom(p) < amount
    ensures amount <= Denom(p) ==> AmountA(liquidity, p) <= amount
  {
    var d, denom := DeltaA(p), Denom(p);
    DivBound(amount * Area(p), d * Q32, liquidity);
    AreaBound(liquidity, d, amount, Area(p), denom);
    if denom > 0 {
      DivBound(liquidity * d, denom, AmountA(liquidity, p));
      ExcessBound(AmountA(liquidity, p), amount, denom, liquidity * d);
    }
  }

  lemma ExcessBound(pulled: nat, amount: nat, denom: nat, product: nat)
    requires denom * pulled <= product < amount * (denom + 1)
    ensures (pulled - amount) * denom < amount
    ensures amount <= denom ==> pulled <= amount
  {
    assert amount * (denom + 1) == amount * denom + amount;
    assert (pulled - amount) * denom == pulled * denom - amount * denom;
    if pulled > amount {
      MulMonotone(denom, 1, pulled - amount);
    }
  }

  lemma AreaBound(liquidity: nat, d: nat, amount: nat, area: nat, denom: nat)
    requires (d * Q32) * liquidity <= amount * area && amount > 0 && area < Q32 * (denom + 1)
    ensures liquidity * d < amount * (denom + 1)
  {
    assert amount * area < amount * (Q32 * (denom + 1));
    assert (d * Q32) * liquidity == Q32 * (liquidity * d);
    assert amount * (Q32 * (denom + 1)) == Q32 * (amount * (denom + 1));
  }

  /** Token B pulled back exceeds the B deposited exactly when the B side came out as zero
      liquidity, was ignored, and the A side's liquidity needs more than was given. */
  lemma DepositBRespectedIff(amountA: nat, amountB: nat, p: Band)
    requires p.lower < p.upper
    ensures AmountB(ComputeLiquidity(amountA, amountB, p), p) <= amountB <==>
            !(InRange(p) && LiquidityB(amountB, p) == 0 &&
              LiquidityA(amountA, p) * DeltaB(p) >= (amountB + 1) * Q32)
  {
    var liquidity := ComputeLiquidity(amountA, amountB, p);
    if p.lower < p.current {
      if liquidity <= LiquidityB(amountB, p) {
        SideBRespected(amountB, p, liquidity);
        if InRange(p) && LiquidityB(amountB, p) == 0 && amountA != 0 {
          assert LiquidityA(amountA, p) == 0;
        }
        if amountA == 0 {
          NoA(p);
        }
      } else {
        assert liquidity == LiquidityA(amountA, p) && LiquidityB(amountB, p) == 0;
        DivBound(liquidity * DeltaB(p), Q32, amountB + 1);
      }
    }
  }

  lemma NoA(p: Band)
    requires p.lower < p.upper
    ensures LiquidityA(0, p) == 0
  {}

  /** Token A pulled back, when A was deposited and its side counted. */
  lemma DepositARespected(amountA: nat, amountB: nat, p: Band)
    requires p.lower < p.upper
    requires LiquidityA(amountA, p) > 0
    ensures var pulled := AmountA(ComputeLiquidity(amountA, amountB, p), p);
            (pulled - amountA) * Denom(p) < amountA && (amountA <= Denom(p) ==> pulled <= amountA)
  {
    if amountA == 0 {
      NoA(p);
    }
    SideARespected(amountA, p, ComputeLiquidity(amountA, amountB, p));
  }

  /** The most A that the rounding of the denominator may add to what was supplied: none up to
      the denominator, else less than the `1 / denom` part. */
  function Rounding(amount: nat, p: Band): nat {
    if amount == 0 || Denom(p) == 0 then 0 else (amount - 1) / Denom(p)
  }

  lemma WithinRounding(pulled: nat, amount: nat, denom: nat)
    requires denom > 0 && amount > 0
    ensures (pulled - amount) * denom < amount <==> pulled <= amount + (amount - 1) / denom
  {
    DivBound(amount - 1, denom, pulled - amount);
  }

  /** Token A pulled back exceeds the A deposited, by more than rounding explains, exactly when
      the A side came out as zero liquidity, was ignored, and the B side's liquidity needs more
      than was given. */
  lemma DepositARespectedIff(amountA: nat, amountB: nat, p: Band)
    ensures AmountA(ComputeLiquidity(amountA, amountB, p), p) <= amountA + Rounding(amountA, p) <==>
            !(InRange(p) && Denom(p) > 0 && LiquidityA(amountA, p) == 0 &&
              LiquidityB(amountB, p) * DeltaA(p) >= (amountA + Rounding(amountA, p) + 1) * Denom(p))
  {
    hide Denom, LiquidityA, LiquidityB, AmountA;
    var liquidity := ComputeLiquidity(amountA, amountB, p);
    if p.lower < p.upper && p.current < p.upper && Denom(p) > 0 {
      NoA(p);
      NoB(p);
      if LiquidityA(amountA, p) > 0 {
        DepositARespected(amountA, amountB, p);
        WithinRounding(AmountA(liquidity, p), amountA, Denom(p));
      } else {
        PullsAtMost(liquidity, p, amountA + Rounding(amountA, p));
        OnlyInRange(amountB, p);
      }
    } else {
      PullsNoA(liquidity, p);
    }
  }

  lemma PullsAtMost(liquidity: nat, p: Band, amount: nat)
    requires p.lower < p.upper && p.current < p.upper && Denom(p) > 0
    ensures AmountA(liquidity, p) <= amount <==> !(liquidity * DeltaA(p) >= (amount + 1) * Denom(p))
  {
    DivBound(liquidity * DeltaA(p), Denom(p), amount + 1);
  }

  lemma PullsNoA(liquidity: nat, p: Band)
    requires p.lower >= p.upper || p.current >= p.upper || Denom(p) == 0
    ensures AmountA(liquidity, p) == 0
  {}

  lemma OnlyInRange(amount: nat, p: Band)
    requires p.lower < p.upper && p.current < p.upper
    ensures LiquidityB(amount, p) > 0 ==> InRange(p)
  {}

  lemma NoB(p: Band)
    requires p.lower < p.upper
    ensures LiquidityB(0, p) == 0
  {
    if p.current > p.lower {
      DivUnique(0, DeltaB(p), 0, 0);
    }
  }

  /** The A side can be ignored too: a deposit with no A, in range, may pull A. */
  lemma IgnoredSidePullsA()
    ensures var p := Band(Q32, 4 * Q32, 2 * Q32);
            AmountA(ComputeLiquidity(0, 8, p), p) > 0
  {
    var p := Band(Q32, 4 * Q32, 2 * Q32);
    assert LiquidityB(8, p) == 8;
    assert ComputeLiquidity(0, 8, p) == 8;
  }

  // ---------------------------------------------------------------------
  // Pulling and depositing again
  // ---------------------------------------------------------------------

  /** What a position pulls as B buys no more liquidity than it had. */
  lemma PulledBRespected(liquidity: nat, p: Band)
    requires p.lower < p.upper
    ensures LiquidityB(AmountB(liquidity, p), p) <= liquidity
  {
    var b := AmountB(liquidity, p);
    if liquidity == 0 {
      NoB(p);
    } else if p.lower < p.current {
      DivBound(liquidity * DeltaB(p), Q32, b);
      DivMonotone(b * Q32, liquidity * DeltaB(p), DeltaB(p));
      DivUnique(liquidity * DeltaB(p), DeltaB(p), liquidity, 0);
    }
  }

  /** What it pulls as A buys at most a `1 / denom` part more. */
  lemma PulledABound(liquidity: nat, p: Band)
    requires p.lower < p.upper && liquidity > 0
    ensures (LiquidityA(AmountA(liquidity, p), p) - liquidity) * Denom(p) < liquidity
  {
    var a := AmountA(liquidity, p);
    if a == 0 {
      NoA(p);
    } else {
      var bought := LiquidityA(a, p);
      DivBound(a * Area(p), DeltaA(p) * Q32, bought);
      AreaBound(bought, DeltaA(p), a, Area(p), Denom(p));
      DivBound(liquidity * DeltaA(p), Denom(p), a);
      BoughtBound(bought, liquidity, a, DeltaA(p), Denom(p));
    }
  }

  lemma BoughtBound(bought: nat, liquidity: nat, a: nat, d: nat, denom: nat)
    requires d > 0 && denom > 0 && bought * d < a * (denom + 1) && denom * a <= liquidity * d
    ensures (bought - liquidity) * denom < liquidity
  {
    calc <= {
      d * (bought * denom);
      denom * (bought * d);
      { MulMonotone(denom, bought * d, a * (denom + 1) - 1); }
      denom * (a * (denom + 1) - 1);
      (denom + 1) * (denom * a) - denom;
      { MulMonotone(denom + 1, denom * a, liquidity * d); }
      (denom + 1) * (liquidity * d) - denom;
      d * (liquidity * (denom + 1)) - denom;
    }
    if bought * denom >= liquidity * (denom + 1) {
      MulMonotone(d, liquidity * (denom + 1), bought * denom);
    }
    assert (bought - liquidity) * denom == bought * denom - liquidity * denom;
    assert liquidity * (denom + 1) == liquidity * denom + liquidity;
  }

  /** On every band, depositing what a position pulled buys at most a `1 / denom` part more
      liquidity than it had. */
  lemma FreeLiquidityBound(liquidity: nat, p: Band)
    requires liquidity > 0
    ensures (ComputeLiquidity(AmountA(liquidity, p), AmountB(liquidity, p), p) - liquidity) * Denom(p) < liquidity
  {
    hide LiquidityA, LiquidityB, AmountA, AmountB;
    var bought := ComputeLiquidity(AmountA(liquidity, p), AmountB(liquidity, p), p);
    if p.lower < p.upper {
      PulledBRespected(liquidity, p);
      PulledABound(liquidity, p);
    }
    if bought <= liquidity {
      MulMonotone(Denom(p), bought - liquidity, 0);
    }
  }

  /** It buys no more at all, unless the B side comes out as zero and is ignored, and the A pulled
      is enough for one unit more. */
  lemma NoFreeLiquidityIff(liquidity: nat, p: Band)
    ensures ComputeLiquidity(AmountA(liquidity, p), AmountB(liquidity, p), p) <= liquidity <==>
            !(p.lower < p.upper && p.current < p.upper && LiquidityB(AmountB(liquidity, p), p) == 0 &&
              AmountA(liquidity, p) * Area(p) >= (liquidity + 1) * (DeltaA(p) * Q32))
  {
    hide LiquidityB, AmountA, AmountB;
    var a, b := AmountA(liquidity, p), AmountB(liquidity, p);
    if p.lower < p.upper {
      PulledBRespected(liquidity, p);
      if p.current < p.upper {
        DivBound(a * Area(p), DeltaA(p) * Q32, liquidity + 1);
        if a == 0 {
          NoA(p);
        }
      }
    }
  }

  /** Below its range a position with liquidity 10 can be withdrawn and deposited again for 15. */
  lemma FreeLiquidity()
    ensures var p := Band(65536, 98304, 1);
            && AmountA(10, p) == 327680 && AmountB(10, p) == 0
            && ComputeLiquidity(327680, 0, p) == 15
  {
    var p := Band(65536, 98304, 1);
    assert Denom(p) == 1 && Area(p) == 65536 * 98304 && DeltaA(p) == 32768;
  }
}
