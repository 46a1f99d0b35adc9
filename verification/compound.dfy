/** Compound interest: interest is added to the principal `n` times a year,
    and continuous compounding as the limit. The real-exponent power and the
    exponential come from the environment. */
module CompoundInterest {
  import opened Types
  import opened Elementary
  import SimpleInterest

  /** The gate shared with the principal calculation: rate, then frequency,
      then time. */
  function ValidateCompoundParams(annualRate: real, compoundingFrequency: nat, timeYears: real): (res: Result<()>)
    ensures res.Ok? <==> 0.0 <= annualRate && compoundingFrequency != 0 && 0.0 <= timeYears
    ensures res == Err(InvalidInterestRate) <==> annualRate < 0.0
    ensures res == Err(InvalidPeriods) <==>
      0.0 <= annualRate && (compoundingFrequency == 0 || timeYears < 0.0)
  {
    if annualRate < 0.0 then Err(InvalidInterestRate)
    else if compoundingFrequency == 0 then Err(InvalidPeriods)
    else if timeYears < 0.0 then Err(InvalidPeriods)
    else Ok(())
  }

  /** The principal is checked first, then the parameters. */
  function ValidateCompoundInputs(principal: real, annualRate: real, compoundingFrequency: nat, timeYears: real): (res: Result<()>)
    ensures res == Err(InvalidMonetaryValue) <==> principal < 0.0
    ensures 0.0 <= principal ==> res == ValidateCompoundParams(annualRate, compoundingFrequency, timeYears)
    ensures res.Ok? <==>
      0.0 <= principal && 0.0 <= annualRate && compoundingFrequency != 0 && 0.0 <= timeYears
  {
    if principal < 0.0 then Err(InvalidMonetaryValue)
    else ValidateCompoundParams(annualRate, compoundingFrequency, timeYears)
  }

  /** `(1 + r/n)^(n*t)`, the growth of one unit of money. */
  function CompoundFactor(env: Env, annualRate: real, compoundingFrequency: nat, timeYears: real): real
    requires compoundingFrequency != 0
  {
    var ratePerPeriod := annualRate / (compoundingFrequency as real);
    var totalPeriods := (compoundingFrequency as real) * timeYears;
    env.powf(1.0 + ratePerPeriod, totalPeriods)
  }

  /** `P * (1 + r/n)^(n*t)`. */
  function Amount(env: Env, principal: real, annualRate: real, compoundingFrequency: nat, timeYears: real): (res: Result<real>)
    ensures res.Err? <==> ValidateCompoundInputs(principal, annualRate, compoundingFrequency, timeYears).Err?
    ensures res.Err? ==> res.error == ValidateCompoundInputs(principal, annualRate, compoundingFrequency, timeYears).error
  {
    var _ :- ValidateCompoundInputs(principal, annualRate, compoundingFrequency, timeYears);
    Ok(principal * CompoundFactor(env, annualRate, compoundingFrequency, timeYears))
  }

  /** Interest earned: the amount less the principal. */
  function Interest(env: Env, principal: real, annualRate: real, compoundingFrequency: nat, timeYears: real): (res: Result<real>)
    ensures res.Err? <==> Amount(env, principal, annualRate, compoundingFrequency, timeYears).Err?
  {
    var amount :- Amount(env, principal, annualRate, compoundingFrequency, timeYears);
    Ok(amount - principal)
  }

  /** Principal needed to reach a target: `A / (1 + r/n)^(n*t)`. The target
      is checked before the parameters, and a zero factor is reported. */
  function Principal(env: Env, targetAmount: real, annualRate: real, compoundingFrequency: nat, timeYears: real): (res: Result<real>)
    ensures res == Err(InvalidMonetaryValue) <==> targetAmount < 0.0
    ensures 0.0 <= targetAmount && ValidateCompoundParams(annualRate, compoundingFrequency, timeYears).Err? ==>
      res == Err(ValidateCompoundParams(annualRate, compoundingFrequency, timeYears).error)
    ensures res == Err(DivisionByZero) <==>
      0.0 <= targetAmount && ValidateCompoundParams(annualRate, compoundingFrequency, timeYears).Ok? &&
      CompoundFactor(env, annualRate, compoundingFrequency, timeYears) == 0.0
    ensures res.Ok? ==> res.value * CompoundFactor(env, annualRate, compoundingFrequency, timeYears) == targetAmount
  {
    if targetAmount < 0.0 then Err(InvalidMonetaryValue)
    else
      var _ :- ValidateCompoundParams(annualRate, compoundingFrequency, timeYears);
      var compoundFactor := CompoundFactor(env, annualRate, compoundingFrequency, timeYears);
      if compoundFactor == 0.0 then Err(DivisionByZero)
      else Ok(targetAmount / compoundFactor)
  }

  /** `P * e^(r*t)`: principal, then rate, then time are validated. */
  function ContinuousAmount(env: Env, principal: real, annualRate: real, timeYears: real): (res: Result<real>)
    ensures res == Err(InvalidMonetaryValue) <==> principal < 0.0
    ensures res == Err(InvalidInterestRate) <==> 0.0 <= principal && annualRate < 0.0
    ensures res == Err(InvalidPeriods) <==> 0.0 <= principal && 0.0 <= annualRate && timeYears < 0.0
    ensures res.Ok? <==> 0.0 <= principal && 0.0 <= annualRate && 0.0 <= timeYears
  {
    if principal < 0.0 then Err(InvalidMonetaryValue)
    else if annualRate < 0.0 then Err(InvalidInterestRate)
    else if timeYears < 0.0 then Err(InvalidPeriods)
    else Ok(principal * env.exp(annualRate * timeYears))
  }

  /** Effective annual rate `(1 + r/n)^n - 1`, with an integer power. */
  function EffectiveAnnualRate(nominalRate: real, compoundingFrequency: nat): (res: Result<real>)
    ensures res == Err(InvalidInterestRate) <==> nominalRate < 0.0
    ensures res == Err(InvalidPeriods) <==> 0.0 <= nominalRate && compoundingFrequency == 0
    ensures res.Ok? ==> 0.0 <= res.value
  {
    if nominalRate < 0.0 then Err(InvalidInterestRate)
    else if compoundingFrequency == 0 then Err(InvalidPeriods)
    else
      var ratePerPeriod := nominalRate / (compoundingFrequency as real);
      assert 1.0 <= Powi(1.0 + ratePerPeriod, compoundingFrequency) by {
        Bernoulli(ratePerPeriod, compoundingFrequency);
        assert 0.0 <= (compoundingFrequency as real) * ratePerPeriod;
      }
      Ok(Powi(1.0 + ratePerPeriod, compoundingFrequency) - 1.0)
  }

  /** The interest plus the principal is the amount, with the same errors. */
  lemma InterestPlusPrincipal(env: Env, principal: real, annualRate: real, compoundingFrequency: nat, timeYears: real)
    ensures Amount(env, principal, annualRate, compoundingFrequency, timeYears) ==
      match Interest(env, principal, annualRate, compoundingFrequency, timeYears)
      case Ok(i) => Ok(i + principal)
      case Err(e) => Err(e)
  {
  }

  /** Discounting the compounded amount recovers the principal whenever the
      discounting does not fail, whatever `powf` computes, and it never fails
      when the growth factor is positive. */
  lemma PrincipalOfAmount(env: Env, principal: real, annualRate: real, compoundingFrequency: nat, timeYears: real)
    requires ValidateCompoundInputs(principal, annualRate, compoundingFrequency, timeYears).Ok?
    ensures Amount(env, principal, annualRate, compoundingFrequency, timeYears).Ok?
    ensures var a := Amount(env, principal, annualRate, compoundingFrequency, timeYears).value;
      var p := Principal(env, a, annualRate, compoundingFrequency, timeYears);
      p.Ok? ==> p.value == principal
    ensures var a := Amount(env, principal, annualRate, compoundingFrequency, timeYears).value;
      0.0 < CompoundFactor(env, annualRate, compoundingFrequency, timeYears) ==>
      Principal(env, a, annualRate, compoundingFrequency, timeYears) == Ok(principal)
  {
    var f := CompoundFactor(env, annualRate, compoundingFrequency, timeYears);
    var a := principal * f;
    assert Amount(env, principal, annualRate, compoundingFrequency, timeYears).value == a;
    if f != 0.0 && 0.0 <= a {
      assert Principal(env, a, annualRate, compoundingFrequency, timeYears).value == a / f;
      assert a / f == principal;
    }
    if 0.0 < f {
      MulLeftMono(principal, 0.0, f);
    }
  }

  /** Compounding the discounted target reaches the target again when the
      growth factor is positive. */
  lemma AmountOfPrincipal(env: Env, targetAmount: real, annualRate: real, compoundingFrequency: nat, timeYears: real)
    requires 0.0 <= targetAmount
    requires ValidateCompoundParams(annualRate, compoundingFrequency, timeYears).Ok?
    requires 0.0 < CompoundFactor(env, annualRate, compoundingFrequency, timeYears)
    ensures Principal(env, targetAmount, annualRate, compoundingFrequency, timeYears).Ok?
    ensures var p := Principal(env, targetAmount, annualRate, compoundingFrequency, timeYears).value;
      Amount(env, p, annualRate, compoundingFrequency, timeYears) == Ok(targetAmount)
  {
    var f := CompoundFactor(env, annualRate, compoundingFrequency, timeYears);
    var p := targetAmount / f;
    assert Principal(env, targetAmount, annualRate, compoundingFrequency, timeYears).value == p;
    assert 0.0 <= p;
    assert p * f == targetAmount;
    assert ValidateCompoundInputs(p, annualRate, compoundingFrequency, timeYears).Ok?;
    assert Amount(env, p, annualRate, compoundingFrequency, timeYears).Ok?;
    assert Amount(env, p, annualRate, compoundingFrequency, timeYears).value == p * f;
  }

  /** Compounding once a year for whole years, where `powf` agrees with the
      integer power, gives at least the simple-interest amount. */
  lemma CompoundBeatsSimple(env: Env, principal: real, annualRate: real, years: nat)
    requires 0.0 <= principal && 0.0 <= annualRate
    requires env.powf(1.0 + annualRate / 1.0, 1.0 * (years as real)) == Powi(1.0 + annualRate, years)
    ensures Amount(env, principal, annualRate, 1, years as real).Ok?
    ensures SimpleInterest.Amount(principal, annualRate, years as real).Ok?
    ensures SimpleInterest.Amount(principal, annualRate, years as real).value <=
      Amount(env, principal, annualRate, 1, years as real).value
  {
    var f := Powi(1.0 + annualRate, years);
    Bernoulli(annualRate, years);
    assert annualRate / 1.0 == annualRate;
    assert CompoundFactor(env, annualRate, 1, years as real) == f;
    assert Amount(env, principal, annualRate, 1, years as real).value == principal * f;
    MulLeftMono(principal, 1.0 + annualRate * (years as real), f);
  }

  /** Where `powf` agrees with the integer power over whole years, the
      growth factor is at least the simple-interest factor `1 + r t`,
      whatever the compounding frequency. */
  lemma CompoundFactorAtLeastSimple(env: Env, annualRate: real, compoundingFrequency: nat, years: nat)
    requires 0.0 <= annualRate && compoundingFrequency != 0
    requires var n := compoundingFrequency as real;
      env.powf(1.0 + annualRate / n, n * (years as real)) ==
      Powi(1.0 + annualRate / n, compoundingFrequency * years)
    ensures 1.0 + annualRate * (years as real) <=
      CompoundFactor(env, annualRate, compoundingFrequency, years as real)
  {
    var ratePerPeriod := annualRate / (compoundingFrequency as real);
    var periods := compoundingFrequency * years;
    FactorOverWholeYears(env, annualRate, compoundingFrequency, years);
    Bernoulli(ratePerPeriod, periods);
    PeriodsTimesRate(compoundingFrequency, years, annualRate);
  }

  /** The growth factor over whole years, where `powf` agrees with the
      integer power. */
  lemma FactorOverWholeYears(env: Env, annualRate: real, compoundingFrequency: nat, years: nat)
    requires compoundingFrequency != 0
    requires var n := compoundingFrequency as real;
      env.powf(1.0 + annualRate / n, n * (years as real)) ==
      Powi(1.0 + annualRate / n, compoundingFrequency * years)
    ensures CompoundFactor(env, annualRate, compoundingFrequency, years as real) ==
      Powi(1.0 + annualRate / (compoundingFrequency as real), compoundingFrequency * years)
  {
  }

  /** `n y` periods at the rate `r / n` add up to `r y`. */
  lemma PeriodsTimesRate(compoundingFrequency: nat, years: nat, annualRate: real)
    requires compoundingFrequency != 0
    ensures ((compoundingFrequency * years) as real) * (annualRate / (compoundingFrequency as real)) ==
      annualRate * (years as real)
  {
    var n := compoundingFrequency as real;
    var y := years as real;
    var q := annualRate / n;
    assert ((compoundingFrequency * years) as real) == n * y;
    assert n * q == annualRate;
    assert (n * y) * q == y * (n * q);
  }

  /** At a zero rate, or over no time, continuous compounding leaves the
      principal unchanged wherever `e^0 == 1`. */
  lemma ContinuousNeutral(env: Env, principal: real, annualRate: real, timeYears: real)
    requires 0.0 <= principal && 0.0 <= annualRate && 0.0 <= timeYears
    requires annualRate == 0.0 || timeYears == 0.0
    requires env.exp(0.0) == 1.0
    ensures ContinuousAmount(env, principal, annualRate, timeYears).Ok?
    ensures ContinuousAmount(env, principal, annualRate, timeYears).value == principal
  {
    assert annualRate * timeYears == 0.0;
  }

  /** Continuous compounding is linear in the principal, whatever `exp`
      computes. */
  lemma ContinuousScalesWithPrincipal(env: Env, principal: real, scale: real, annualRate: real, timeYears: real)
    requires 0.0 <= principal && 0.0 <= scale && 0.0 <= annualRate && 0.0 <= timeYears
    ensures 0.0 <= scale * principal
    ensures ContinuousAmount(env, principal, annualRate, timeYears).Ok?
    ensures ContinuousAmount(env, scale * principal, annualRate, timeYears).Ok?
    ensures ContinuousAmount(env, scale * principal, annualRate, timeYears).value ==
      scale * ContinuousAmount(env, principal, annualRate, timeYears).value
  {
    MulLeftMono(scale, 0.0, principal);
  }

  /** Continuous compounding yields at least the simple-interest amount
      wherever `exp` lies above its tangent at zero, `1 + x <= e^x`. */
  lemma ContinuousBeatsSimple(env: Env, principal: real, annualRate: real, timeYears: real)
    requires 0.0 <= principal && 0.0 <= annualRate && 0.0 <= timeYears
    requires 1.0 + annualRate * timeYears <= env.exp(annualRate * timeYears)
    ensures ContinuousAmount(env, principal, annualRate, timeYears).Ok?
    ensures SimpleInterest.Amount(principal, annualRate, timeYears).Ok?
    ensures SimpleInterest.Amount(principal, annualRate, timeYears).value <=
      ContinuousAmount(env, principal, annualRate, timeYears).value
  {
    MulLeftMono(principal, 1.0 + annualRate * timeYears, env.exp(annualRate * timeYears));
  }

  /** Compounding once a year makes the effective rate the nominal rate. */
  lemma AnnualCompoundingIsEffective(nominalRate: real)
    requires 0.0 <= nominalRate
    ensures EffectiveAnnualRate(nominalRate, 1) == Ok(nominalRate)
  {
    assert nominalRate / 1.0 == nominalRate;
    PowiStep(1.0 + nominalRate, 0);
  }

  /** The effective annual rate is never below the nominal rate. */
  lemma EffectiveAtLeastNominal(nominalRate: real, compoundingFrequency: nat)
    requires 0.0 <= nominalRate && compoundingFrequency != 0
    ensures EffectiveAnnualRate(nominalRate, compoundingFrequency).Ok?
    ensures nominalRate <= EffectiveAnnualRate(nominalRate, compoundingFrequency).value
  {
    var n := compoundingFrequency as real;
    var ratePerPeriod := nominalRate / n;
    Bernoulli(ratePerPeriod, compoundingFrequency);
    assert n * ratePerPeriod == nominalRate;
  }

  /** Over one year, where `powf` agrees with the integer power, the amount
      grows by exactly the effective annual rate. */
  lemma OneYearAtEffectiveRate(env: Env, principal: real, nominalRate: real, compoundingFrequency: nat)
    requires 0.0 <= principal && 0.0 <= nominalRate && compoundingFrequency != 0
    requires var n := compoundingFrequency as real;
      env.powf(1.0 + nominalRate / n, n * 1.0) == Powi(1.0 + nominalRate / n, compoundingFrequency)
    ensures Amount(env, principal, nominalRate, compoundingFrequency, 1.0).Ok?
    ensures EffectiveAnnualRate(nominalRate, compoundingFrequency).Ok?
    ensures Amount(env, principal, nominalRate, compoundingFrequency, 1.0).value ==
      principal * (1.0 + EffectiveAnnualRate(nominalRate, compoundingFrequency).value)
  {
  }
}
