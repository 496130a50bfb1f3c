/** One row of the staking model's report: its rates, and its amounts as printed text. */
module StakingScenario {
  import opened Bytes
  import opened JsonText
  import opened Staking
  import Amounts
  import Arithmetic

  datatype Scenario = Scenario(
    nativeSelfStake: Text, userStake: Text, effectiveStake: Text, bondedRatioBps: nat, epochCeiling: Text,
    epochBudget: Text, utilizationBps: nat, grossAprBps: nat, delegatedNetAprBps: int)

  /** `build_scenario`; None where it raises. */
  function Build(supply: nat, inflationBps: nat, targetBps: nat, validators: nat, selfStake: nat, stakers: nat,
                 userStake: nat, commissionBps: int): Option<Scenario> {
    var native, user := validators * selfStake, stakers * userStake;
    var effective := native + user;
    if effective > supply then None
    else
      var ceiling, budget := Ceiling(supply, inflationBps), Budget(supply, inflationBps, targetBps, effective).value;
      var gross := AprBps(budget, effective);
      Some(Scenario(
        Amounts.LicnString(native), Amounts.LicnString(user), Amounts.LicnString(effective),
        if supply == 0 then 0 else effective * BPS / supply,
        Amounts.LicnString(ceiling), Amounts.LicnString(budget),
        if ceiling == 0 then 0 else budget * BPS / ceiling,
        gross, gross * (BPS - commissionBps) / BPS))
  }

  /** The amount a printed LICN text says. */
  function Says(t: Text): Option<nat> { Amounts.Read(t, 9) }

  lemma PrintedSays(n: nat)
    ensures Says(Amounts.LicnString(n)) == Some(n)
  {
    hide Amounts.LicnString, Amounts.Formatted, Amounts.Read;
    Amounts.PrintersAgree(n);
    Amounts.FormattedSays(n, 9);
  }

  /** The printed stakes add up, the printed budget stays within the printed ceiling, ratios
      stay within 100%, and the gross APR is capped by inflation over the target share. */
  lemma ScenarioSound(supply: nat, inflationBps: nat, targetBps: nat, validators: nat, selfStake: nat, stakers: nat,
                      userStake: nat, commissionBps: nat)
    requires Build(supply, inflationBps, targetBps, validators, selfStake, stakers, userStake, commissionBps).Some?
    ensures var s :=
              Build(supply, inflationBps, targetBps, validators, selfStake, stakers, userStake, commissionBps).value;
            && Says(s.nativeSelfStake).Some? && Says(s.userStake).Some? && Says(s.epochBudget).Some?
            && Says(s.epochCeiling).Some?
            && Says(s.effectiveStake) == Some(Says(s.nativeSelfStake).value + Says(s.userStake).value)
            && Says(s.epochBudget).value <= Says(s.epochCeiling).value
            && s.bondedRatioBps <= BPS && s.utilizationBps <= BPS
            && s.grossAprBps * targetBps <= inflationBps * BPS
            && s.delegatedNetAprBps <= s.grossAprBps
  {
    hide Amounts.LicnString, Amounts.Read, Budget, Ceiling, AprBps, Says;
    var native, user := validators * selfStake, stakers * userStake;
    var effective := native + user;
    PrintedSays(native);
    PrintedSays(user);
    PrintedSays(effective);
    BudgetShare(supply, inflationBps, targetBps, effective);
    var ceiling, budget := Ceiling(supply, inflationBps), Budget(supply, inflationBps, targetBps, effective).value;
    PrintedSays(ceiling);
    PrintedSays(budget);
    AtMostAll(effective, supply);
    AtMostAll(budget, ceiling);
    if effective == 0 {
      NoStake(budget, targetBps, inflationBps);
    } else {
      AprCapped(supply, inflationBps, targetBps, effective);
    }
    NetBelowGross(AprBps(budget, effective), commissionBps);
  }

  lemma AtMostAll(part: nat, whole: nat)
    requires part <= whole
    ensures whole > 0 ==> part * BPS / whole <= BPS
  {
    if whole > 0 {
      Arithmetic.MulMonotone(BPS, part, whole);
      Arithmetic.DivMonotone(part * BPS, whole * BPS, whole);
      Arithmetic.DivUnique(whole * BPS, whole, BPS, 0);
    }
  }

  lemma NoStake(budget: nat, targetBps: nat, inflationBps: nat)
    ensures AprBps(budget, 0) == 0 && 0 * targetBps <= inflationBps * BPS
  {}

  lemma NetBelowGross(gross: nat, commissionBps: nat)
    ensures gross * (BPS - commissionBps) / BPS <= gross
  {
    Arithmetic.MulMonotone(gross, BPS - commissionBps, BPS);
    Arithmetic.DivMonotone(gross * (BPS - commissionBps), gross * BPS, BPS);
  }

  /** `share` is `part` of `whole` in basis points, rounded down; nothing of nothing is zero. */
  predicate IsShare(share: int, part: int, whole: nat) {
    if whole == 0 then share == 0 else share * whole <= part * BPS < (share + 1) * whole
  }

  lemma ShareIs(part: int, whole: nat)
    ensures whole > 0 ==> IsShare(part * BPS / whole, part, whole)
  {
    if whole > 0 {
      var x, q := part * BPS, part * BPS / whole;
      Arithmetic.DivBound(x, whole, q);
      Arithmetic.DivBound(x, whole, q + 1);
    }
  }

  /** Each field says what its name says, of these stakes, this ceiling and this budget. */
  predicate RowSays(s: Scenario, supply: nat, native: nat, user: nat, ceiling: nat, budget: nat, commissionBps: int) {
    && Says(s.nativeSelfStake) == Some(native) && Says(s.userStake) == Some(user)
    && Says(s.effectiveStake) == Some(native + user)
    && Says(s.epochCeiling) == Some(ceiling) && Says(s.epochBudget) == Some(budget)
    && IsShare(s.bondedRatioBps, native + user, supply) && IsShare(s.utilizationBps, budget, ceiling)
    && s.grossAprBps == AprBps(budget, native + user)
    && s.delegatedNetAprBps * BPS <= s.grossAprBps * (BPS - commissionBps) < (s.delegatedNetAprBps + 1) * BPS
  }

  /** A row is refused if and only if more would be staked than there is; otherwise it is right. */
  lemma ScenarioMeans(supply: nat, inflationBps: nat, targetBps: nat, validators: nat, selfStake: nat, stakers: nat,
                      userStake: nat, commissionBps: int, native: nat, user: nat)
    requires native == validators * selfStake && user == stakers * userStake
    ensures var row := Build(supply, inflationBps, targetBps, validators, selfStake, stakers, userStake, commissionBps);
            var budget := Budget(supply, inflationBps, targetBps, native + user);
            && (row.None? <==> native + user > supply)
            && (row.Some? ==>
                  budget.Some? &&
                  RowSays(row.value, supply, native, user, Ceiling(supply, inflationBps), budget.value, commissionBps))
  {
    hide Amounts.LicnString, Amounts.Read, Budget, Ceiling, AprBps, Says, IsShare;
    var effective := native + user;
    if effective <= supply {
      BudgetShare(supply, inflationBps, targetBps, effective);
      var ceiling, budget := Ceiling(supply, inflationBps), Budget(supply, inflationBps, targetBps, effective).value;
      PrintedSays(native);
      PrintedSays(user);
      PrintedSays(effective);
      PrintedSays(ceiling);
      PrintedSays(budget);
      ShareIs(effective, supply);
      ShareIs(budget, ceiling);
      NoShare(effective, budget);
    }
  }

  lemma NoShare(effective: int, budget: int)
    ensures IsShare(0, effective, 0) && IsShare(0, budget, 0)
  {}
}
