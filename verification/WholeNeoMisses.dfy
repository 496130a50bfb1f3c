/**
  When the alignment to whole NEO finds nothing, in terms of the midpoints of the bisection.
*/
module WholeNeoMisses {
  import opened Arithmetic
  import opened Bytes
  import opened TickMath
  import opened Liquidity
  import opened WholeNeo

  // ---------------------------------------------------------------------
  // Where the pulls pass a target
  // ---------------------------------------------------------------------

  /** The least of the B amounts y..b that pulls `target` or more of A, or else the one past `b`. */
  function Reaching(a: nat, p: Band, target: nat, y: nat, b: nat): nat
    decreases b + 1 - y
  {
    if y > b || PullA(a, y, p) >= target then y else Reaching(a, p, target, y + 1, b)
  }

  /** The least of them that pulls any B. */
  function Drawing(a: nat, p: Band, y: nat, b: nat): nat
    decreases b + 1 - y
  {
    if y > b || PullB(a, y, p) > 0 then y else Drawing(a, p, y + 1, b)
  }

  lemma {:induction false} ReachingIsLeast(a: nat, p: Band, target: nat, y: nat, b: nat, c: nat)
    requires InRange(p) && Edge(a, p) <= y <= c <= b
    ensures PullA(a, c, p) >= target <==> c >= Reaching(a, p, target, y, b)
    decreases b - y
  {
    hide PullA, PullB, Edge;
    PullMonotone(a, y, c, p);
    if PullA(a, y, p) >= target {
    } else if y < c {
      ReachingIsLeast(a, p, target, y + 1, b, c);
    } else {
      ReachingFrom(a, p, target, y + 1, b);
    }
  }

  lemma {:induction false} ReachingFrom(a: nat, p: Band, target: nat, y: nat, b: nat)
    ensures y <= Reaching(a, p, target, y, b) <= if y > b then y else b + 1
    decreases b + 1 - y
  {
    hide PullA;
    if y <= b && PullA(a, y, p) < target {
      ReachingFrom(a, p, target, y + 1, b);
    }
  }

  lemma {:induction false} DrawingIsLeast(a: nat, p: Band, y: nat, b: nat, c: nat)
    requires InRange(p) && Edge(a, p) <= y <= c <= b
    ensures PullB(a, c, p) > 0 <==> c >= Drawing(a, p, y, b)
    decreases b - y
  {
    hide PullA, PullB, Edge;
    PullMonotone(a, y, c, p);
    if PullB(a, y, p) > 0 {
    } else if y < c {
      DrawingIsLeast(a, p, y + 1, b, c);
    } else {
      DrawingFrom(a, p, y + 1, b);
    }
  }

  lemma {:induction false} DrawingFrom(a: nat, p: Band, y: nat, b: nat)
    ensures y <= Drawing(a, p, y, b)
    decreases b + 1 - y
  {
    hide PullB;
    if y <= b && PullB(a, y, p) == 0 {
      DrawingFrom(a, p, y + 1, b);
    }
  }

  // ---------------------------------------------------------------------
  // A bisection among midpoints
  // ---------------------------------------------------------------------

  /** What the search of 0..b depends on: the amounts below `edge` all look alike and are hits if
      `decoys`; from there on those that reach the target are the ones from `reach`, and the hits
      are `least` up to but not including `past`. */
  datatype Marks = Marks(edge: nat, reach: nat, least: nat, past: nat, decoys: bool)

  predicate Hit(m: Marks, mid: nat) {
    if mid < m.edge then m.decoys else m.least <= mid < m.past
  }

  /** No midpoint of lo..hi is a hit, on a bisection that turns down below `edge` and from `reach`. */
  predicate Misses(m: Marks, lo: nat, hi: int)
    decreases hi - lo + 1
  {
    lo <= hi ==>
      var mid := (lo + hi) / 2;
      && !Hit(m, mid)
      && if mid < m.edge || mid >= m.reach then Misses(m, lo, mid - 1) else Misses(m, mid + 1, hi)
  }

  function MarksOf(a: nat, b: nat, p: Band, target: nat): Marks
    requires InRange(p)
  {
    var edge := Edge(a, p);
    var reach := Reaching(a, p, target, edge, b);
    Marks(edge, reach, Larger(reach, Drawing(a, p, edge, b)), Reaching(a, p, target + 1, edge, b),
          Hits(a, 0, p, target))
  }

  /** The marks say which amounts hit, and which way the search turns if any amount reaches. */
  lemma MarksAreRight(a: nat, b: nat, p: Band, target: nat, mid: nat)
    requires InRange(p) && mid <= b
    ensures var m := MarksOf(a, b, p, target);
            && m.edge == Edge(a, p)
            && (Hits(a, mid, p, target) <==> Hit(m, mid))
            && (PullA(a, mid, p) >= target <==>
                  if mid < m.edge then PullA(a, 0, p) >= target else mid >= m.reach)
  {
    hide PullA, PullB, LiquidityA, FirstB, Reaching, Drawing;
    if mid < Edge(a, p) {
      BelowFirstB(a, mid, p);
    } else {
      ReachingIsLeast(a, p, target, Edge(a, p), b, mid);
      ReachingIsLeast(a, p, target + 1, Edge(a, p), b, mid);
      DrawingIsLeast(a, p, Edge(a, p), b, mid);
    }
  }

  lemma {:induction false} NothingToHit(m: Marks, lo: nat, hi: int)
    requires forall y: nat :: lo <= y <= hi ==> !Hit(m, y)
    ensures Misses(m, lo, hi)
    decreases hi - lo + 1
  {
    hide Hit;
    if lo <= hi {
      var mid := (lo + hi) / 2;
      assert !Hit(m, mid);
      NothingToHit(m, lo, mid - 1);
      NothingToHit(m, mid + 1, hi);
    }
  }

  lemma {:induction false} MissesWithin(a: nat, b: nat, p: Band, target: nat, lo: nat, hi: int)
    requires InRange(p) && hi <= b && (Edge(a, p) == 0 || PullA(a, 0, p) >= target)
    ensures Search(a, p, target, lo, hi, None) == None <==> Misses(MarksOf(a, b, p, target), lo, hi)
    decreases hi - lo + 1
  {
    hide PullA, PullB, MarksOf, Hit;
    if lo <= hi {
      var mid := (lo + hi) / 2;
      MarksAreRight(a, b, p, target, mid);
      if Hits(a, mid, p, target) {
        SearchBelow(a, p, target, lo, mid - 1, Some(mid));
      } else {
        MissesWithin(a, b, p, target, lo, mid - 1);
        MissesWithin(a, b, p, target, mid + 1, hi);
      }
    }
  }

  // ---------------------------------------------------------------------
  // The exact conditions
  // ---------------------------------------------------------------------

  /** In range the search finds nothing if and only if no midpoint falls on an amount that hits,
      whatever amounts do. */
  lemma SearchMissesIff(a: nat, b: nat, p: Band, target: nat)
    requires InRange(p)
    ensures Search(a, p, target, 0, b, None) == None <==> Misses(MarksOf(a, b, p, target), 0, b)
  {
    hide PullA, PullB, Search, Misses, MarksOf, Hit;
    if Edge(a, p) == 0 || PullA(a, 0, p) >= target {
      MissesWithin(a, b, p, target, 0, b);
    } else {
      forall y: nat | y <= b ensures !Hits(a, y, p, target) && !Hit(MarksOf(a, b, p, target), y) {
        NoBPullsMost(a, y, p);
        MarksAreRight(a, b, p, target, y);
      }
      NoHits(a, p, target, 0, b, None);
      NothingToHit(MarksOf(a, b, p, target), 0, b);
    }
  }

  /** Where no B at all would already do, and the given amount reaches the target, nothing is missed. */
  lemma NothingMissed(a: nat, b: nat, p: Band, target: nat)
    requires InRange(p) && Hits(a, 0, p, target) && target <= PullA(a, b, p)
    ensures Search(a, p, target, 0, b, None).Some?
  {
    hide PullA, PullB, Search, Reaching, LiquidityA, FirstB;
    HasA(a, p);
    FirstBIsLeast(0, p);
    NoB(p);
    var w := Reaching(a, p, target, FirstB(p), b);
    if b < FirstB(p) || w == FirstB(p) {
      forall y: nat | y <= b ensures PullA(a, y, p) >= target && (y < FirstB(p) ==> Hits(a, y, p, target)) {
        if y < FirstB(p) {
          BelowFirstB(a, y, p);
        } else {
          ReachingIsLeast(a, p, target, FirstB(p), b, y);
        }
      }
      SearchDown(a, p, target, b);
    } else {
      ReachingIsLeast(a, p, target, FirstB(p), b, b);
      ReachingFrom(a, p, target, FirstB(p), b);
      forall y: nat | y <= b
        ensures FirstB(p) <= y < w ==> PullA(a, y, p) < target
        ensures y < FirstB(p) || w <= y ==> Hits(a, y, p, target)
      {
        if y < FirstB(p) {
          BelowFirstB(a, y, p);
        } else {
          ReachingIsLeast(a, p, target, FirstB(p), b, y);
          NoBPullsMost(a, y, p);
          if w <= y {
            DrawsB(a, y, p);
          }
        }
      }
      SearchUp(a, p, target, FirstB(p), w, 0, b);
    }
  }

  /** With no B, only a counted A side pulls any. */
  lemma HasA(a: nat, p: Band)
    requires InRange(p) && PullB(a, 0, p) > 0
    ensures LiquidityA(a, p) > 0
  {
    NoB(p);
  }

  /** Beyond the least amount with liquidity of its own some B is pulled, if any A alone pulls some. */
  lemma DrawsB(a: nat, y: nat, p: Band)
    requires InRange(p) && LiquidityA(a, p) > 0 && PullB(a, 0, p) > 0 && y > FirstB(p)
    ensures PullB(a, y, p) > 0
  {
    hide LiquidityA, Denom;
    NoB(p);
    NoA(p);
    FirstBIsLeast(y, p);
    var d, l := DeltaB(p), LiquidityB(y, p);
    DivBound(y * Q32, d, l + 1);
    DivBound(l * d, Q32, 1);
    assert (FirstB(p) + 1) * Q32 >= d + Q32;
    MulMonotone(Q32, FirstB(p) + 1, y);
    assert d * (l + 1) == l * d + d;
  }

  /** If every amount reaches and those below some edge hit, the search gets down to one. */
  lemma {:induction false} SearchDown(a: nat, p: Band, target: nat, hi: nat)
    requires Hits(a, 0, p, target) && forall y: nat :: y <= hi ==> PullA(a, y, p) >= target
    ensures Search(a, p, target, 0, hi, None).Some?
    decreases hi
  {
    hide PullA, PullB;
    var mid := (0 + hi) / 2;
    if Hits(a, mid, p, target) {
      SearchBelow(a, p, target, 0, mid - 1, Some(mid));
    } else {
      SearchDown(a, p, target, mid - 1);
    }
  }

  /** If the amounts short of the target lie between two parts that hit, it ends in one of them. */
  lemma {:induction false} SearchUp(a: nat, p: Band, target: nat, edge: nat, w: nat, lo: nat, hi: nat)
    requires lo <= w <= hi
    requires forall y: nat :: edge <= y < w && y <= hi ==> PullA(a, y, p) < target
    requires forall y: nat :: (y < edge || w <= y) && y <= hi ==> Hits(a, y, p, target)
    ensures Search(a, p, target, lo, hi, None).Some?
    decreases hi - lo
  {
    hide PullA, PullB;
    var mid := (lo + hi) / 2;
    if mid < edge || w <= mid {
      assert Hits(a, mid, p, target);
      SearchBelow(a, p, target, lo, mid - 1, Some(mid));
    } else {
      assert PullA(a, mid, p) < target;
      SearchUp(a, p, target, edge, w, mid + 1, hi);
    }
  }

  predicate Finds(a: nat, b: nat, p: Band, u: nat) { Search(a, p, u * SPORES, 0, b, None).Some? }

  lemma {:induction false} TryUnitsUnable(a: nat, b: nat, p: Band, units: nat, stop: nat)
    ensures TryUnits(a, b, p, units, stop) == Unable <==> forall u: nat :: stop < u <= units ==> !Finds(a, b, p, u)
    decreases units
  {
    hide Search;
    if units > stop {
      assert TryUnits(a, b, p, units, stop) == Unable <==>
             !Finds(a, b, p, units) && TryUnits(a, b, p, units - 1, stop) == Unable;
      TryUnitsUnable(a, b, p, units - 1, stop);
    }
  }

  /** One of the fifty targets is missed. */
  predicate Missed(a: nat, b: nat, p: Band, u: nat)
    requires InRange(p)
  {
    Misses(MarksOf(a, b, p, u * SPORES), 0, b)
  }

  lemma AboveRangeWhole(a: nat, b: nat, p: Band)
    requires p.lower >= p.upper || p.current >= p.upper
    ensures PullA(a, b, p) == 0
  {}

  /** The alignment fails if and only if the pull is not whole yet and, in range, the midpoints
      miss each of the fifty targets. */
  lemma UnableIff(a: nat, b: nat, p: Band)
    ensures AlignBand(a, b, p) == Unable <==>
            && PullA(a, b, p) % SPORES != 0
            && var units := PullA(a, b, p) / SPORES;
               InRange(p) ==> forall u: nat :: Tried(u, units) ==> Missed(a, b, p, u)
  {
    hide Search, TryUnits, Misses, MarksOf, PullA;
    if PullA(a, b, p) % SPORES != 0 {
      var units := PullA(a, b, p) / SPORES;
      if InRange(p) {
        TryUnitsUnable(a, b, p, units, Stop(units));
        assert forall u: nat :: Tried(u, units) <==> Stop(units) < u <= units;
        forall u: nat | Stop(units) < u <= units ensures Finds(a, b, p, u) <==> !Missed(a, b, p, u) {
          SearchMissesIff(a, b, p, u * SPORES);
        }
      } else {
        if p.lower >= p.upper || p.current >= p.upper {
          AboveRangeWhole(a, b, p);
        }
        BelowRangeUnable(a, b, p);
      }
    }
  }

  /** So if A alone would pull one of the fifty whole amounts, the deposit is aligned. */
  lemma WholeWithoutB(a: nat, b: nat, p: Band, u: nat)
    requires InRange(p) && Hits(a, 0, p, u * SPORES) && u * SPORES <= PullA(a, b, p)
    requires Tried(u, PullA(a, b, p) / SPORES)
    ensures AlignBand(a, b, p).Aligned?
  {
    hide Search, TryUnits, PullA, PullB;
    NothingMissed(a, b, p, u * SPORES);
    DivBound(PullA(a, b, p), SPORES, u);
    TryUnitsComplete(a, b, p, PullA(a, b, p) / SPORES, Stop(PullA(a, b, p) / SPORES), u,
                     Search(a, p, u * SPORES, 0, b, None).value);
  }

  const NEARLY_MISSED := Band(208732770, 91943449702, 6356721221)

  lemma NearlyMissedPulls()
    ensures PullA(14, 3, NEARLY_MISSED) == 1 && PullB(14, 3, NEARLY_MISSED) == 2
    ensures PullA(14, 4, NEARLY_MISSED) == 1 && PullB(14, 4, NEARLY_MISSED) == 2
    ensures PullA(14, 9, NEARLY_MISSED) == 3
    ensures PullA(14, 1, NEARLY_MISSED) == PullA(14, 0, NEARLY_MISSED) == 13
  {
    var p := NEARLY_MISSED;
    assert LiquidityA(14, p) == 22;
    assert LiquidityB(0, p) == 0 && LiquidityB(1, p) == 0 && LiquidityB(3, p) == 2;
    assert LiquidityB(4, p) == 2 && LiquidityB(9, p) == 6;
  }

  /** The least exact amount can be passed over and another one found: 3 would do, and 4 is returned. */
  lemma LeastPassedOver()
    ensures Hits(14, 3, NEARLY_MISSED, 1)
    ensures Search(14, NEARLY_MISSED, 1, 0, 18, None) == Some(4)
  {
    NearlyMissedPulls();
    hide PullA, PullB;
    var p := NEARLY_MISSED;
    assert Search(14, p, 1, 0, 0, Some(4)) == Some(4);
    assert Search(14, p, 1, 0, 3, Some(4)) == Search(14, p, 1, 0, 0, Some(4));
    assert Search(14, p, 1, 0, 8, None) == Search(14, p, 1, 0, 3, Some(4));
    assert Search(14, p, 1, 0, 18, None) == Search(14, p, 1, 0, 8, None);
  }
}
