/**
  The stake-weighted epoch security budget: an inflation ceiling per epoch, earned in
  proportion to bonded stake until the target is met.
*/
module Staking {
  import opened Arithmetic
  import opened Bytes

  const SLOTS_PER_EPOCH: nat := 432_000
  const SLOTS_PER_YEAR: nat := 78_840_000
  const BPS: nat := 10_000

  function CeilDiv(numerator: nat, denominator: nat): Option<nat> {
    if denominator == 0 then None else Some((numerator + denominator - 1) / denominator)
  }

  function Ceiling(supply: nat, inflationBps: nat): nat {
    supply * inflationBps * SLOTS_PER_EPOCH / (BPS * SLOTS_PER_YEAR)
  }

  function Target(supply: nat, targetBps: nat): nat {
    CeilDiv(supply * targetBps, BPS).value
  }

  /** `epoch_security_budget`; None where it raises. */
  function Budget(supply: nat, inflationBps: nat, targetBps: nat, stake: int): Option<nat> {
    if stake < 0 || stake > supply then None
    else
      var ceiling, target := Ceiling(supply, inflationBps), Target(supply, targetBps);
      if ceiling == 0 || stake == 0 then Some(0)
      else if target == 0 || stake >= target then Some(ceiling)
      else Some(ceiling * stake / target)
  }

  function AprBps(reward: nat, stake: nat): nat {
    if reward == 0 || stake == 0 then 0 else reward * SLOTS_PER_YEAR * BPS / (stake * SLOTS_PER_EPOCH)
  }

  // ---------------------------------------------------------------------
  // What the roundings keep
  // ---------------------------------------------------------------------

  /** The ceiling is the greatest whole number within the epoch's share of yearly inflation. */
  lemma CeilingIsGreatest(supply: nat, inflationBps: nat, c: nat)
    ensures c <= Ceiling(supply, inflationBps) <==>
        c * (SLOTS_PER_YEAR * BPS) <= supply * inflationBps * SLOTS_PER_EPOCH
  {
    DivBound(supply * inflationBps * SLOTS_PER_EPOCH, BPS * SLOTS_PER_YEAR, c);
  }

  /** Up to the target, the budget is the greatest whole number within the stake's share. */
  lemma BudgetIsGreatest(supply: nat, inflationBps: nat, targetBps: nat, stake: nat, b: nat)
    requires stake <= supply && stake <= Target(supply, targetBps) && Target(supply, targetBps) > 0
    ensures Budget(supply, inflationBps, targetBps, stake).Some?
    ensures b <= Budget(supply, inflationBps, targetBps, stake).value
       <==> b * Target(supply, targetBps) <= Ceiling(supply, inflationBps) * stake
  {
    hide Ceiling, Target;
    var ceiling, target := Ceiling(supply, inflationBps), Target(supply, targetBps);
    DivBound(ceiling * stake, target, b);
    if stake == target {
      WholeQuotient(ceiling, target);
    } else if ceiling == 0 || stake == 0 {
      DivUnique(0, target, 0, 0);
      ZeroProduct(ceiling, stake);
    }
  }

  lemma ZeroProduct(a: nat, b: nat)
    requires a == 0 || b == 0
    ensures a * b == 0
  {}

  /** The APR is the greatest whole number of basis points the reward covers for a year. */
  lemma AprIsGreatest(reward: nat, stake: nat, bps: nat)
    requires stake > 0
    ensures bps <= AprBps(reward, stake) <==> bps * (stake * SLOTS_PER_EPOCH) <= reward * (SLOTS_PER_YEAR * BPS)
  {
    var whole, per := reward * SLOTS_PER_YEAR * BPS, stake * SLOTS_PER_EPOCH;
    DivBound(whole, per, bps);
    if reward == 0 && bps > 0 {
      MulMonotone(per, 1, bps);
    }
  }

  /** The target is the least stake that is at least its share of the supply. */
  lemma TargetIsLeast(supply: nat, targetBps: nat, stake: nat)
    ensures stake >= Target(supply, targetBps) <==> stake * BPS >= supply * targetBps
  {}

  lemma BudgetShare(supply: nat, inflationBps: nat, targetBps: nat, stake: nat)
    requires stake <= supply
    ensures Budget(supply, inflationBps, targetBps, stake).Some?
    ensures var budget := Budget(supply, inflationBps, targetBps, stake).value;
            && budget <= Ceiling(supply, inflationBps)
            && budget * Target(supply, targetBps) <= Ceiling(supply, inflationBps) * stake
  {
    hide Ceiling, Target;
    var ceiling, target := Ceiling(supply, inflationBps), Target(supply, targetBps);
    if stake >= target {
      MulMonotone(ceiling, target, stake);
    } else {
      DivBound(ceiling * stake, target, ceiling * stake / target);
      MulMonotone(ceiling, stake, target);
      DivBound(ceiling * target, target, ceiling);
      DivMonotone(ceiling * stake, ceiling * target, target);
      WholeQuotient(ceiling, target);
    }
  }

  lemma WholeQuotient(q: nat, d: nat)
    requires d > 0
    ensures q * d / d == q
  {
    DivUnique(q * d, d, q, 0);
  }

  lemma Cancel(k: nat, a: int, b: int)
    requires k > 0 && k * a <= k * b
    ensures a <= b
  {
    if a > b {
      MulMonotone(k, b + 1, a);
    }
  }

  /** Chaining the three roundings: the stake and the epoch length cancel. */
  lemma AprChain(apr: nat, stake: nat, target: nat, budget: nat, ceiling: nat, yearly: nat, epoch: nat, year: nat)
    requires stake > 0 && epoch > 0
    requires apr * (stake * epoch) <= budget * year
    requires budget * target <= ceiling * stake
    requires ceiling * year <= yearly * epoch
    ensures apr * target <= yearly
  {
    var k := stake * epoch;
    assert k > 0;
    calc <= {
      k * (apr * target);
      { Regroup(k, apr, target); }
      target * (apr * k);
      { MulMonotone(target, apr * k, budget * year); }
      target * (budget * year);
      { Regroup(target, budget, year); }
      year * (budget * target);
      { MulMonotone(year, budget * target, ceiling * stake); }
      year * (ceiling * stake);
      { Regroup(year, ceiling, stake); }
      stake * (ceiling * year);
      { MulMonotone(stake, ceiling * year, yearly * epoch); }
      stake * (yearly * epoch);
      { Regroup(stake, yearly, epoch); Regroup(epoch, yearly, stake); Associate(stake, epoch, yearly); }
      k * yearly;
    }
    Cancel(k, apr * target, yearly);
  }

  lemma Regroup(a: nat, b: nat, c: nat)
    ensures a * (b * c) == c * (b * a)
  {}

  lemma Associate(a: nat, b: nat, c: nat)
    ensures a * (c * b) == a * b * c
  {}

  // ---------------------------------------------------------------------
  // The theorems
  // ---------------------------------------------------------------------

  /** Gross APR never exceeds the inflation rate spread over the target share. */
  lemma AprCapped(supply: nat, inflationBps: nat, targetBps: nat, stake: nat)
    requires 1 <= stake <= supply
    ensures AprBps(Budget(supply, inflationBps, targetBps, stake).value, stake) * targetBps <= inflationBps * BPS
  {
    hide Ceiling, Target, Budget, AprBps;
    BudgetShare(supply, inflationBps, targetBps, stake);
    var ceiling, target := Ceiling(supply, inflationBps), Target(supply, targetBps);
    var budget := Budget(supply, inflationBps, targetBps, stake).value;
    var apr := AprBps(budget, stake);
    CeilingIsGreatest(supply, inflationBps, ceiling);
    AprIsGreatest(budget, stake, apr);
    AprChain(apr, stake, target, budget, ceiling, supply * inflationBps, SLOTS_PER_EPOCH, SLOTS_PER_YEAR * BPS);
    TargetIsLeast(supply, targetBps, target);
    CapFromTarget(apr, target, supply, targetBps, inflationBps, BPS);
  }

  lemma CapFromTarget(apr: nat, target: nat, supply: nat, targetBps: nat, inflationBps: nat, bps: nat)
    requires supply > 0 && apr * target <= supply * inflationBps && target * bps >= supply * targetBps
    ensures apr * targetBps <= inflationBps * bps
  {
    calc <= {
      supply * (apr * targetBps);
      { Regroup(supply, apr, targetBps); Regroup(targetBps, apr, supply); Swap(supply, apr, targetBps); }
      apr * (supply * targetBps);
      { MulMonotone(apr, supply * targetBps, target * bps); }
      apr * (target * bps);
      { Regroup(apr, target, bps); Swap(bps, target, apr); }
      bps * (apr * target);
      { MulMonotone(bps, apr * target, supply * inflationBps); }
      bps * (supply * inflationBps);
      { Regroup(bps, supply, inflationBps); Swap(bps, supply, inflationBps); }
      supply * (inflationBps * bps);
    }
    Cancel(supply, apr * targetBps, inflationBps * bps);
  }

  lemma Swap(a: nat, b: nat, c: nat)
    ensures a * (b * c) == b * (a * c)
    ensures a * (b * c) == b * (c * a)
    ensures a * (b * c) == a * (c * b)
  {}

  /** More stake never earns a smaller budget. */
  lemma BudgetMonotone(supply: nat, inflationBps: nat, targetBps: nat, s: nat, t: nat)
    requires s <= t <= supply
    ensures Budget(supply, inflationBps, targetBps, s).value <= Budget(supply, inflationBps, targetBps, t).value
  {
    hide Ceiling, Target;
    BudgetShare(supply, inflationBps, targetBps, s);
    var ceiling, target := Ceiling(supply, inflationBps), Target(supply, targetBps);
    if t < target {
      MulMonotone(ceiling, s, t);
      DivMonotone(ceiling * s, ceiling * t, target);
    }
  }

  /** The budget meets the ceiling from the target on. Below it the whole ceiling is not paid
      out, whatever the ceiling is. */
  lemma BudgetMeetsCeilingIff(supply: nat, inflationBps: nat, targetBps: nat, stake: nat)
    requires 1 <= stake <= supply
    ensures Budget(supply, inflationBps, targetBps, stake).value == Ceiling(supply, inflationBps)
       <==> Ceiling(supply, inflationBps) == 0 || stake >= Target(supply, targetBps)
  {
    hide Ceiling, Target;
    var ceiling, target := Ceiling(supply, inflationBps), Target(supply, targetBps);
    if stake < target && ceiling > 0 {
      DivBound(ceiling * stake, target, ceiling);
      Strict(ceiling, stake, target);
    }
  }

  lemma Strict(k: nat, a: nat, b: nat)
    requires k > 0 && a < b
    ensures k * a < b * k
  {
    MulMonotone(k, a + 1, b);
  }

  /** What a list of epochs at these stakes pays out. */
  function Issued(supply: nat, inflationBps: nat, targetBps: nat, stakes: seq<nat>): nat
    requires forall i :: 0 <= i < |stakes| ==> stakes[i] <= supply
  {
    if stakes == [] then 0
    else Budget(supply, inflationBps, targetBps, stakes[0]).value + Issued(supply, inflationBps, targetBps, stakes[1..])
  }

  lemma {:induction false} IssuedBound(supply: nat, inflationBps: nat, targetBps: nat, stakes: seq<nat>)
    requires forall i :: 0 <= i < |stakes| ==> stakes[i] <= supply
    ensures Issued(supply, inflationBps, targetBps, stakes) <= |stakes| * Ceiling(supply, inflationBps)
    decreases |stakes|
  {
    hide Budget, Ceiling;
    if stakes != [] {
      BudgetShare(supply, inflationBps, targetBps, stakes[0]);
      IssuedBound(supply, inflationBps, targetBps, stakes[1..]);
      OneMore(|stakes|, Ceiling(supply, inflationBps));
    }
  }

  lemma OneMore(n: nat, c: nat)
    requires n > 0
    ensures n * c == (n - 1) * c + c
  {}

  /** Any epochs that fit in a year issue at most the yearly inflation, whatever the stakes. */
  lemma YearlyIssue(supply: nat, inflationBps: nat, targetBps: nat, stakes: seq<nat>)
    requires forall i :: 0 <= i < |stakes| ==> stakes[i] <= supply
    requires |stakes| * SLOTS_PER_EPOCH <= SLOTS_PER_YEAR
    ensures Issued(supply, inflationBps, targetBps, stakes) <= supply * inflationBps / BPS
  {
    hide Issued, Ceiling;
    IssuedBound(supply, inflationBps, targetBps, stakes);
    var n, c := |stakes|, Ceiling(supply, inflationBps);
    CeilingIsGreatest(supply, inflationBps, c);
    YearChain(n, c, supply * inflationBps, SLOTS_PER_EPOCH, SLOTS_PER_YEAR, BPS);
    DivBound(supply * inflationBps, BPS, n * c);
  }

  lemma YearChain(n: nat, c: nat, yearly: nat, epoch: nat, year: nat, bps: nat)
    requires n * epoch <= year && year > 0 && c * (year * bps) <= yearly * epoch
    ensures bps * (n * c) <= yearly
  {
    calc <= {
      year * (bps * (n * c));
      { YearRegroup(year, bps, n, c); }
      n * (c * (year * bps));
      { MulMonotone(n, c * (year * bps), yearly * epoch); }
      n * (yearly * epoch);
      { Swap(n, yearly, epoch); }
      yearly * (n * epoch);
      { MulMonotone(yearly, n * epoch, year); }
      yearly * year;
      year * yearly;
    }
    Cancel(year, bps * (n * c), yearly);
  }

  lemma YearRegroup(year: nat, bps: nat, n: nat, c: nat)
    ensures year * (bps * (n * c)) == n * (c * (year * bps))
  {
    Swap(bps, n, c);
    Swap(year, n, bps * c);
    Swap(c, year, bps);
    assert year * (bps * (n * c)) == year * (n * (bps * c)) == n * (year * (bps * c));
    assert c * (year * bps) == year * (bps * c);
  }
}
