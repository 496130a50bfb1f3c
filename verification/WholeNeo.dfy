/**
  Adjusting the B amount of a wNEO deposit until the pool pulls a whole number of NEO.
*/
module WholeNeo {
  import opened Arithmetic
  import opened Bytes
  import opened TickMath
  import opened Liquidity

  const SPORES: nat := 1_000_000_000

  datatype Alignment = Aligned(amountA: nat, amountB: nat) | Unable

  function PullA(a: nat, b: nat, p: Band): nat { AmountA(ComputeLiquidity(a, b, p), p) }

  function PullB(a: nat, b: nat, p: Band): nat { AmountB(ComputeLiquidity(a, b, p), p) }

  // ---------------------------------------------------------------------
  // The search, as a function
  // ---------------------------------------------------------------------

  /** The bisection over B amounts lo..hi, remembering the last exact hit. */
  function Search(a: nat, p: Band, target: nat, lo: nat, hi: int, found: Option<nat>): Option<nat>
    decreases hi - lo + 1
  {
    if lo > hi then found
    else
      var mid := (lo + hi) / 2;
      if PullA(a, mid, p) >= target then
        Search(a, p, target, lo, mid - 1,
               if PullA(a, mid, p) == target && PullB(a, mid, p) > 0 then Some(mid) else found)
      else Search(a, p, target, mid + 1, hi, found)
  }

  /** Whole-NEO targets from `units` down to `stop + 1`. */
  function TryUnits(a: nat, b: nat, p: Band, units: nat, stop: nat): Alignment
    decreases units
  {
    if units <= stop then Unable
    else
      match Search(a, p, units * SPORES, 0, b, None)
      case Some(c) => Aligned(a, c)
      case None => TryUnits(a, b, p, units - 1, stop)
  }

  function Stop(units: nat): nat { if units > 50 then units - 50 else 0 }

  /** One of the fifty whole amounts from `units` down, as far as there are so many. */
  predicate Tried(u: nat, units: nat) { 0 < u <= units < u + 50 }

  function AlignBand(a: nat, b: nat, p: Band): Alignment {
    var pull := PullA(a, b, p);
    if pull % SPORES == 0 then Aligned(a, b)
    else TryUnits(a, b, p, pull / SPORES, Stop(pull / SPORES))
  }

  // ---------------------------------------------------------------------
  // The implementation
  // ---------------------------------------------------------------------

  method Bisect(a: nat, b: nat, p: Band, target: nat) returns (candidate: Option<nat>)
    ensures candidate == Search(a, p, target, 0, b, None)
  {
    hide ComputeLiquidity, AmountA, AmountB;
    var lo: nat, hi: int := 0, b;
    candidate := None;
    while lo <= hi
      invariant Search(a, p, target, lo, hi, candidate) == Search(a, p, target, 0, b, None)
      decreases hi - lo + 1
    {
      var mid := (lo + hi) / 2;
      var liquidity := ComputeLiquidity(a, mid, p);
      var (candidateA, candidateB) := ComputeAmounts(liquidity, p);
      if candidateA >= target {
        if candidateA == target && candidateB > 0 {
          candidate := Some(mid);
        }
        hi := mid - 1;
      } else {
        lo := mid + 1;
      }
    }
  }

  const PREFIX: string := "wNEO/"

  /** `align_whole_token_a_amount`, given the pool's current square-root price. */
  method Align(name: string, lowerTick: int, upperTick: int, sqrtCurrent: nat, a: nat, b: nat)
    returns (r: Alignment)
    ensures r == if PREFIX <= name then AlignBand(a, b, Band(SqrtPrice(lowerTick), SqrtPrice(upperTick), sqrtCurrent))
                 else Aligned(a, b)
  {
    hide Search, ComputeLiquidity, AmountA, AmountB, SqrtPrice;
    if !(PREFIX <= name) {
      return Aligned(a, b);
    }
    var sqrtLower := TickToSqrtPrice(lowerTick);
    var sqrtUpper := TickToSqrtPrice(upperTick);
    var p := Band(sqrtLower, sqrtUpper, sqrtCurrent);
    var liquidity := ComputeLiquidity(a, b, p);
    var (actualA, _) := ComputeAmounts(liquidity, p);
    if actualA == 0 || actualA % SPORES == 0 {
      return Aligned(a, b);
    }
    var targetUnits := actualA / SPORES;
    var stop := if targetUnits - 50 > 0 then targetUnits - 50 else 0;
    var units := targetUnits;
    while units > stop
      invariant stop <= units
      invariant TryUnits(a, b, p, units, stop) == AlignBand(a, b, p)
    {
      var candidate := Bisect(a, b, p, units * SPORES);
      if candidate.Some? {
        return Aligned(a, candidate.value);
      }
      units := units - 1;
    }
    r := Unable;
  }

  // ---------------------------------------------------------------------
  // Whatever is returned pulls whole NEO
  // ---------------------------------------------------------------------

  /** `c` pulls exactly `target` and some B. */
  predicate Hits(a: nat, c: nat, p: Band, target: nat) {
    PullA(a, c, p) == target && PullB(a, c, p) > 0
  }

  lemma {:induction false} SearchSound(a: nat, p: Band, target: nat, lo: nat, hi: int, found: Option<nat>, max: nat)
    requires hi <= max && (found.Some? ==> found.value <= max && Hits(a, found.value, p, target))
    ensures var c := Search(a, p, target, lo, hi, found);
            c.Some? ==> c.value <= max && Hits(a, c.value, p, target)
    decreases hi - lo + 1
  {
    hide PullA, PullB;
    if lo <= hi {
      var mid := (lo + hi) / 2;
      if PullA(a, mid, p) >= target {
        SearchSound(a, p, target, lo, mid - 1, if Hits(a, mid, p, target) then Some(mid) else found, max);
      } else {
        SearchSound(a, p, target, mid + 1, hi, found, max);
      }
    }
  }

  lemma {:induction false} TryUnitsSound(a: nat, b: nat, p: Band, units: nat, stop: nat)
    ensures var r := TryUnits(a, b, p, units, stop);
            r.Aligned? ==>
              && r.amountA == a && r.amountB <= b
              && exists u :: stop < u <= units && Hits(a, r.amountB, p, u * SPORES)
    decreases units
  {
    hide Search, Hits;
    if units > stop {
      SearchSound(a, p, units * SPORES, 0, b, None, b);
      TryUnitsSound(a, b, p, units - 1, stop);
    }
  }

  /** An alignment keeps the A amount, never raises the B amount, and makes the pull whole:
      less than 50 NEO below the original pull and not above it. */
  lemma AlignmentIsWhole(a: nat, b: nat, p: Band)
    requires AlignBand(a, b, p).Aligned?
    ensures var r := AlignBand(a, b, p);
            && r.amountA == a && r.amountB <= b
            && PullA(a, r.amountB, p) % SPORES == 0
            && PullA(a, r.amountB, p) <= PullA(a, b, p) < PullA(a, r.amountB, p) + 50 * SPORES
  {
    hide TryUnits, PullA, PullB;
    var pull, r := PullA(a, b, p), AlignBand(a, b, p);
    if pull % SPORES != 0 {
      var units := pull / SPORES;
      TryUnitsSound(a, b, p, units, Stop(units));
      var u :| Stop(units) < u <= units && Hits(a, r.amountB, p, u * SPORES);
    }
  }

  /** A deposit is left as it is if and only if its pull is whole already. */
  lemma LeftAloneIff(a: nat, b: nat, p: Band)
    ensures AlignBand(a, b, p) == Aligned(a, b) <==> PullA(a, b, p) % SPORES == 0
  {
    hide TryUnits, PullA, PullB;
    if AlignBand(a, b, p).Aligned? {
      AlignmentIsWhole(a, b, p);
    }
  }

  // ---------------------------------------------------------------------
  // What the bisection finds
  // ---------------------------------------------------------------------

  /** The least B amount with any liquidity of its own. */
  function FirstB(p: Band): nat
    requires InRange(p)
  {
    (DeltaB(p) + Q32 - 1) / Q32
  }

  lemma FirstBIsLeast(b: nat, p: Band)
    requires InRange(p)
    ensures LiquidityB(b, p) > 0 <==> b >= FirstB(p)
  {
    var d := DeltaB(p);
    DivBound(b * Q32, d, 1);
    assert LiquidityB(b, p) > 0 <==> d <= b * Q32;
  }

  /** The least B amount that is not ignored beside `a`. */
  function Edge(a: nat, p: Band): nat
    requires InRange(p)
  {
    if LiquidityA(a, p) > 0 then FirstB(p) else 0
  }

  /** From there on more B never buys less liquidity, so it never pulls less of either token. */
  lemma PullMonotone(a: nat, b: nat, b': nat, p: Band)
    requires InRange(p) && Edge(a, p) <= b <= b'
    ensures PullA(a, b, p) <= PullA(a, b', p) && PullB(a, b, p) <= PullB(a, b', p)
  {
    hide FirstB, Denom, LiquidityA;
    FirstBIsLeast(b, p);
    FirstBIsLeast(b', p);
    MulMonotone(Q32, b, b');
    DivMonotone(b * Q32, b' * Q32, DeltaB(p));
    NoB(p);
    var l, l' := ComputeLiquidity(a, b, p), ComputeLiquidity(a, b', p);
    assert l <= l';
    AmountsMonotone(l, l', p);
  }

  lemma AmountsMonotone(l: nat, l': nat, p: Band)
    requires InRange(p) && l <= l'
    ensures AmountA(l, p) <= AmountA(l', p) && AmountB(l, p) <= AmountB(l', p)
  {
    hide Denom;
    MulMonotone(DeltaA(p), l, l');
    MulMonotone(DeltaB(p), l, l');
    DivMonotone(l * DeltaB(p), l' * DeltaB(p), Q32);
    if Denom(p) > 0 {
      DivMonotone(l * DeltaA(p), l' * DeltaA(p), Denom(p));
    }
  }

  /** The bisection of lo..hi towards `x` meets `x` before a midpoint falls below `first`. */
  predicate Meets(first: nat, x: nat, lo: nat, hi: int)
    decreases hi - lo + 1
  {
    && lo <= hi
    && var mid := (lo + hi) / 2;
       mid == x || (mid >= first && if mid > x then Meets(first, x, lo, mid - 1) else Meets(first, x, mid + 1, hi))
  }

  /** No midpoint of the bisection of lo..hi towards `x` falls below `first`. */
  predicate Clear(first: nat, x: nat, lo: nat, hi: int)
    decreases hi - lo + 1
  {
    lo <= hi ==>
      var mid := (lo + hi) / 2;
      mid >= first && if mid >= x then Clear(first, x, lo, mid - 1) else Clear(first, x, mid + 1, hi)
  }

  /** The midpoints of 0..hi lead to `x`: they have to meet it, and if amounts below `first` look
      like hits too, they have to stay clear of those. */
  predicate LeadsTo(first: nat, x: nat, hi: int, decoys: bool) {
    if decoys then Clear(first, x, 0, hi) else Meets(first, x, 0, hi)
  }

  /** Amounts below FirstB pull what no B at all pulls, since their side is ignored. */
  lemma BelowFirstB(a: nat, b: nat, p: Band)
    requires InRange(p) && LiquidityA(a, p) > 0 && b < FirstB(p)
    ensures PullA(a, b, p) == PullA(a, 0, p) && PullB(a, b, p) == PullB(a, 0, p)
  {
    hide LiquidityA, LiquidityB, AmountA, AmountB, FirstB;
    FirstBIsLeast(b, p);
    FirstBIsLeast(0, p);
    NoA(p);
  }

  /** And that is the most any amount pulls. */
  lemma NoBPullsMost(a: nat, b: nat, p: Band)
    requires InRange(p) && LiquidityA(a, p) > 0
    ensures PullA(a, b, p) <= PullA(a, 0, p)
  {
    hide LiquidityA, LiquidityB, FirstB, Denom;
    NoB(p);
    NoA(p);
    AmountsMonotone(ComputeLiquidity(a, b, p), ComputeLiquidity(a, 0, p), p);
  }

  lemma {:induction false} NoHits(a: nat, p: Band, target: nat, lo: nat, hi: int, found: Option<nat>)
    requires forall y :: lo <= y <= hi ==> !Hits(a, y, p, target)
    ensures Search(a, p, target, lo, hi, found) == found
    decreases hi - lo + 1
  {
    hide PullA, PullB;
    if lo <= hi {
      var mid := (lo + hi) / 2;
      assert !Hits(a, mid, p, target);
      if PullA(a, mid, p) >= target {
        NoHits(a, p, target, lo, mid - 1, found);
      } else {
        NoHits(a, p, target, mid + 1, hi, found);
      }
    }
  }

  lemma {:induction false} SearchBelow(a: nat, p: Band, target: nat, lo: nat, hi: int, found: Option<nat>)
    ensures var c := Search(a, p, target, lo, hi, found); c == found || (c.Some? && c.value <= hi)
    decreases hi - lo + 1
  {
    hide PullA, PullB;
    if lo <= hi {
      var mid := (lo + hi) / 2;
      if PullA(a, mid, p) >= target {
        SearchBelow(a, p, target, lo, mid - 1, if Hits(a, mid, p, target) then Some(mid) else found);
      } else {
        SearchBelow(a, p, target, mid + 1, hi, found);
      }
    }
  }

  /** `x` is the least B amount of its own liquidity that pulls exactly the target. */
  ghost predicate Sought(a: nat, p: Band, target: nat, x: nat) {
    && InRange(p) && LiquidityA(a, p) > 0 && FirstB(p) <= x && Hits(a, x, p, target)
    && forall y :: FirstB(p) <= y < x ==> PullA(a, y, p) < target
  }

  /** Which way the search turns at a midpoint. */
  lemma Turns(a: nat, p: Band, target: nat, x: nat, mid: nat)
    requires Sought(a, p, target, x)
    ensures PullA(a, mid, p) >= target <==> mid < FirstB(p) || mid >= x
    ensures mid < FirstB(p) ==> (Hits(a, mid, p, target) <==> Hits(a, 0, p, target))
    ensures FirstB(p) <= mid < x ==> !Hits(a, mid, p, target)
  {
    hide PullA, PullB, LiquidityA, FirstB;
    if mid < FirstB(p) {
      BelowFirstB(a, mid, p);
      NoBPullsMost(a, x, p);
    } else if mid >= x {
      PullMonotone(a, x, mid, p);
    }
  }

  lemma {:induction false} SearchMeets(a: nat, p: Band, target: nat, lo: nat, hi: int, found: Option<nat>, x: nat)
    requires Sought(a, p, target, x) && !Hits(a, 0, p, target) && found != Some(x)
    ensures Search(a, p, target, lo, hi, found) == Some(x) <==> Meets(FirstB(p), x, lo, hi)
    decreases hi - lo + 1
  {
    hide PullA, PullB, LiquidityA, FirstB, Sought;
    SoughtParts(a, p, target, x);
    if lo <= hi {
      var mid := (lo + hi) / 2;
      Turns(a, p, target, x, mid);
      if mid <= x && (mid == x || mid < FirstB(p)) {
        forall y: nat | y < mid ensures !Hits(a, y, p, target) {
          Turns(a, p, target, x, y);
        }
        NoHits(a, p, target, lo, mid - 1, if Hits(a, mid, p, target) then Some(mid) else found);
      } else if mid > x {
        SearchMeets(a, p, target, lo, mid - 1, if Hits(a, mid, p, target) then Some(mid) else found, x);
      } else {
        SearchMeets(a, p, target, mid + 1, hi, found, x);
      }
    }
  }

  lemma SoughtParts(a: nat, p: Band, target: nat, x: nat)
    requires Sought(a, p, target, x)
    ensures InRange(p) && FirstB(p) <= x && Hits(a, x, p, target)
  {}

  lemma {:induction false} SearchStaysClear(a: nat, p: Band, target: nat, lo: nat, hi: int, found: Option<nat>, x: nat)
    requires Sought(a, p, target, x) && Hits(a, 0, p, target)
    requires lo <= x <= hi + 1 && (found == Some(x) <==> x == hi + 1)
    ensures Search(a, p, target, lo, hi, found) == Some(x) <==> Clear(FirstB(p), x, lo, hi)
    decreases hi - lo + 1
  {
    hide PullA, PullB, LiquidityA, FirstB, Sought;
    SoughtParts(a, p, target, x);
    if lo <= hi {
      var mid := (lo + hi) / 2;
      Turns(a, p, target, x, mid);
      if mid < FirstB(p) {
        SearchBelow(a, p, target, lo, mid - 1, Some(mid));
      } else if mid >= x {
        SearchStaysClear(a, p, target, lo, mid - 1, if Hits(a, mid, p, target) then Some(mid) else found, x);
      } else {
        SearchStaysClear(a, p, target, mid + 1, hi, found, x);
      }
    }
  }

  /** In range, the search for a target returns the least B amount that pulls exactly it if and
      only if the midpoints of 0..b lead there. */
  lemma BisectionIff(a: nat, b: nat, p: Band, target: nat, x: nat)
    requires Sought(a, p, target, x) && x <= b
    ensures Search(a, p, target, 0, b, None) == Some(x) <==> LeadsTo(FirstB(p), x, b, Hits(a, 0, p, target))
  {
    hide PullA, PullB, Search, Meets, Clear, LiquidityA, FirstB, Sought;
    if Hits(a, 0, p, target) {
      SearchStaysClear(a, p, target, 0, b, None, x);
    } else {
      SearchMeets(a, p, target, 0, b, None, x);
    }
  }

  /** Where the A side is ignored, the search always ends at the least amount that pulls exactly the target. */
  lemma {:induction false} BisectionWithoutA(a: nat, p: Band, target: nat, lo: nat, hi: int, found: Option<nat>, x: nat)
    requires InRange(p) && LiquidityA(a, p) == 0 && Hits(a, x, p, target)
    requires forall y :: 0 <= y < x ==> PullA(a, y, p) < target
    requires lo <= x <= hi + 1 && (x == hi + 1 ==> found == Some(x))
    ensures Search(a, p, target, lo, hi, found) == Some(x)
    decreases hi - lo + 1
  {
    hide PullA, PullB, LiquidityA;
    if lo <= hi {
      var mid := (lo + hi) / 2;
      if mid >= x {
        PullMonotone(a, x, mid, p);
        BisectionWithoutA(a, p, target, lo, mid - 1, if Hits(a, mid, p, target) then Some(mid) else found, x);
      } else {
        BisectionWithoutA(a, p, target, mid + 1, hi, found, x);
      }
    }
  }

  /** Where no amount pulls exactly the target, the search returns none. */
  lemma BisectionNone(a: nat, b: nat, p: Band, target: nat)
    requires forall y :: 0 <= y <= b ==> !Hits(a, y, p, target)
    ensures Search(a, p, target, 0, b, None) == None
  {
    hide PullA, PullB, Search;
    NoHits(a, p, target, 0, b, None);
  }

  /** The midpoints do lead there whenever the amount is more than twice FirstB. */
  lemma {:induction false} ClearOfEdge(first: nat, x: nat, lo: nat, hi: int)
    requires x > 2 * first && lo <= x <= hi + 1
    ensures Clear(first, x, lo, hi) && (x <= hi ==> Meets(first, x, lo, hi))
    decreases hi - lo + 1
  {
    if lo <= hi {
      var mid := (lo + hi) / 2;
      if mid >= x {
        ClearOfEdge(first, x, lo, mid - 1);
      } else {
        ClearOfEdge(first, x, mid + 1, hi);
      }
    }
  }

  const NARROW_MISS := Band(0x4000_0000, 0xC_0000_0000, 0x1_8000_0000)  // square-root prices 1/4, 12 and 3/2

  lemma NarrowMissPulls()
    ensures PullA(5, 3, NARROW_MISS) == 1 && PullB(5, 3, NARROW_MISS) == 2
    ensures PullA(5, 1, NARROW_MISS) > 1 && PullA(5, 0, NARROW_MISS) > 1
  {
    var p := NARROW_MISS;
    assert LiquidityA(5, p) == 8;
    assert LiquidityB(0, p) == 0 && LiquidityB(1, p) == 0 && LiquidityB(3, p) == 2;
  }

  /** Closer to FirstB the midpoints can fall below it and miss: here B amount 3 pulls exactly
      the target of 1, and nothing is found. */
  lemma BisectionMisses()
    ensures FirstB(NARROW_MISS) == 2 && Hits(5, 3, NARROW_MISS, 1)
    ensures Search(5, NARROW_MISS, 1, 0, 3, None) == None
  {
    NarrowMissPulls();
    hide PullA, PullB;
    var p := NARROW_MISS;
    assert Search(5, p, 1, 0, -1, None) == None;
    assert Search(5, p, 1, 0, 0, None) == None;
    assert Search(5, p, 1, 0, 3, None) == Search(5, p, 1, 0, 0, None);
  }

  /** Below the range B buys nothing, so no B amount changes the pull: unless it is already
      whole the pool cannot be aligned. */
  lemma BelowRangeUnable(a: nat, b: nat, p: Band)
    requires p.current <= p.lower < p.upper && PullA(a, b, p) % SPORES != 0
    ensures AlignBand(a, b, p) == Unable
  {
    hide TryUnits;
    var units := PullA(a, b, p) / SPORES;
    TryUnitsSound(a, b, p, units, Stop(units));
  }

  lemma {:induction false} TryUnitsComplete(a: nat, b: nat, p: Band, units: nat, stop: nat, u: nat, c: nat)
    requires stop < u <= units && Search(a, p, u * SPORES, 0, b, None) == Some(c)
    ensures TryUnits(a, b, p, units, stop).Aligned?
    ensures PullA(a, TryUnits(a, b, p, units, stop).amountB, p) >= u * SPORES
    decreases units
  {
    hide Search, PullA, PullB;
    match Search(a, p, units * SPORES, 0, b, None)
    case Some(d) =>
      SearchSound(a, p, units * SPORES, 0, b, None, b);
      MulMonotone(SPORES, u, units);
    case None => TryUnitsComplete(a, b, p, units - 1, stop, u, c);
  }

  /** If the search leads to the least B amount for some whole number of NEO within the fifty
      tried, the deposit is aligned, to at least that many. */
  lemma AlignmentFound(a: nat, b: nat, p: Band, u: nat, x: nat)
    requires Tried(u, PullA(a, b, p) / SPORES)
    requires Sought(a, p, u * SPORES, x) && x <= b && LeadsTo(FirstB(p), x, b, Hits(a, 0, p, u * SPORES))
    ensures AlignBand(a, b, p).Aligned? && PullA(a, AlignBand(a, b, p).amountB, p) >= u * SPORES
  {
    hide Search, TryUnits, PullA, PullB, Sought, LeadsTo;
    BisectionIff(a, b, p, u * SPORES, x);
    var units := PullA(a, b, p) / SPORES;
    TryUnitsComplete(a, b, p, units, Stop(units), u, x);
    MulMonotone(SPORES, u, units);
  }
}
