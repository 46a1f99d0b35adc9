/** Simple interest: interest accrues on the initial principal only. */
module SimpleInterest {
  import opened Types

  /** The shared gate: principal, then rate, then time. */
  function ValidateSimpleInterestInputs(principal: real, interestRate: real, timeYears: real): (res: Result<()>)
    ensures res.Ok? <==> 0.0 <= principal && 0.0 <= interestRate && 0.0 <= timeYears
    ensures res == Err(InvalidMonetaryValue) <==> principal < 0.0
    ensures res == Err(InvalidInterestRate) <==> 0.0 <= principal && interestRate < 0.0
    ensures res == Err(InvalidPeriods) <==> 0.0 <= principal && 0.0 <= interestRate && timeYears < 0.0
  {
    if principal < 0.0 then Err(InvalidMonetaryValue)
    else if interestRate < 0.0 then Err(InvalidInterestRate)
    else if timeYears < 0.0 then Err(InvalidPeriods)
    else Ok(())
  }

  /** Interest earned: `P * r * t`. */
  function Interest(principal: real, interestRate: real, timeYears: real): (res: Result<real>)
    ensures res.Err? <==> ValidateSimpleInterestInputs(principal, interestRate, timeYears).Err?
    ensures res.Err? ==> res.error == ValidateSimpleInterestInputs(principal, interestRate, timeYears).error
    ensures res.Ok? ==> 0.0 <= res.value
  {
    var _ :- ValidateSimpleInterestInputs(principal, interestRate, timeYears);
    Ok(principal * interestRate * timeYears)
  }

  /** Amount at the end: `P * (1 + r * t)`. */
  function Amount(principal: real, interestRate: real, timeYears: real): (res: Result<real>)
    ensures res.Err? <==> ValidateSimpleInterestInputs(principal, interestRate, timeYears).Err?
    ensures res.Err? ==> res.error == ValidateSimpleInterestInputs(principal, interestRate, timeYears).error
    ensures res.Ok? ==> principal <= res.value
  {
    var _ :- ValidateSimpleInterestInputs(principal, interestRate, timeYears);
    Ok(principal * (1.0 + interestRate * timeYears))
  }

  /** Principal needed to reach a target amount: `A / (1 + r * t)`. */
  function Principal(targetAmount: real, interestRate: real, timeYears: real): (res: Result<real>)
    ensures res == Err(InvalidMonetaryValue) <==> targetAmount < 0.0
    ensures res == Err(InvalidInterestRate) <==> 0.0 <= targetAmount && interestRate < 0.0
    ensures res == Err(InvalidPeriods) <==> 0.0 <= targetAmount && 0.0 <= interestRate && timeYears < 0.0
    ensures res != Err(DivisionByZero)
    ensures res.Ok? ==> 0.0 <= res.value <= targetAmount
  {
    if targetAmount < 0.0 then Err(InvalidMonetaryValue)
    else if interestRate < 0.0 then Err(InvalidInterestRate)
    else if timeYears < 0.0 then Err(InvalidPeriods)
    else
      var denominator := 1.0 + interestRate * timeYears;
      if denominator == 0.0 then Err(DivisionByZero)
      else
        assert 1.0 <= denominator;
        Ok(targetAmount / denominator)
  }

  /** Rate needed to grow a principal into a target amount: `(A/P - 1) / t`. */
  function Rate(principal: real, targetAmount: real, timeYears: real): (res: Result<real>)
    ensures res == Err(InvalidMonetaryValue) <==> principal <= 0.0 || targetAmount < 0.0
    ensures res == Err(InvalidPeriods) <==> 0.0 < principal && 0.0 <= targetAmount && timeYears <= 0.0
    ensures res.Ok? <==> 0.0 < principal && 0.0 <= targetAmount && 0.0 < timeYears
  {
    if principal <= 0.0 || targetAmount < 0.0 then Err(InvalidMonetaryValue)
    else if timeYears <= 0.0 then Err(InvalidPeriods)
    else Ok((targetAmount / principal - 1.0) / timeYears)
  }

  /** The amount is the principal plus the interest, with the same errors. */
  lemma AmountIsPrincipalPlusInterest(principal: real, interestRate: real, timeYears: real)
    ensures Amount(principal, interestRate, timeYears) ==
      match Interest(principal, interestRate, timeYears)
      case Ok(i) => Ok(principal + i)
      case Err(e) => Err(e)
  {
    assert principal * (1.0 + interestRate * timeYears) == principal + principal * interestRate * timeYears;
  }

  /** At a zero rate the amount is the principal. */
  lemma ZeroRateAmount(principal: real, timeYears: real)
    requires 0.0 <= principal && 0.0 <= timeYears
    ensures Amount(principal, 0.0, timeYears).Ok?
    ensures Amount(principal, 0.0, timeYears).value == principal
  {
    assert 0.0 * timeYears == 0.0;
  }

  /** Discounting the amount gives back the principal. */
  lemma PrincipalOfAmount(principal: real, interestRate: real, timeYears: real)
    requires 0.0 <= principal && 0.0 <= interestRate && 0.0 <= timeYears
    ensures Amount(principal, interestRate, timeYears).Ok?
    ensures Principal(Amount(principal, interestRate, timeYears).value, interestRate, timeYears).Ok?
    ensures Principal(Amount(principal, interestRate, timeYears).value, interestRate, timeYears).value == principal
  {
    var d := 1.0 + interestRate * timeYears;
    assert 1.0 <= d;
    var a := principal * d;
    assert Amount(principal, interestRate, timeYears).value == a;
    assert Principal(a, interestRate, timeYears).value == a / d;
    CancelFactor(d, principal);
    assert a == d * principal;
  }

  /** Solving for the rate recovers the rate that produced the amount. */
  lemma RateOfAmount(principal: real, interestRate: real, timeYears: real)
    requires 0.0 < principal && 0.0 <= interestRate && 0.0 < timeYears
    ensures Amount(principal, interestRate, timeYears).Ok?
    ensures Rate(principal, Amount(principal, interestRate, timeYears).value, timeYears).Ok?
    ensures Rate(principal, Amount(principal, interestRate, timeYears).value, timeYears).value == interestRate
  {
    var growth := interestRate * timeYears;
    var a := principal * (1.0 + growth);
    assert Amount(principal, interestRate, timeYears).value == a;
    assert 0.0 <= a;
    var x := 1.0 + growth;
    CancelFactor(principal, x);
    assert a == principal * x;
    assert a / principal == x;
    assert a / principal - 1.0 == growth;
    CancelFactor(timeYears, interestRate);
    assert timeYears * interestRate == growth;
    assert Rate(principal, a, timeYears).value == growth / timeYears;
  }

  /** The solved rate, applied to the principal, reaches the target amount. */
  lemma AmountAtSolvedRate(principal: real, targetAmount: real, timeYears: real)
    requires 0.0 < principal && principal <= targetAmount && 0.0 < timeYears
    ensures Rate(principal, targetAmount, timeYears).Ok?
    ensures Amount(principal, Rate(principal, targetAmount, timeYears).value, timeYears).Ok?
    ensures Amount(principal, Rate(principal, targetAmount, timeYears).value, timeYears).value == targetAmount
  {
    var q := targetAmount / principal;
    assert 1.0 <= q by {
      assert principal * 1.0 <= targetAmount;
    }
    var rate := (q - 1.0) / timeYears;
    assert Rate(principal, targetAmount, timeYears).value == rate;
    assert 0.0 <= rate;
    assert rate * timeYears == q - 1.0;
    assert principal * q == targetAmount;
    assert Amount(principal, rate, timeYears).value == principal * (1.0 + rate * timeYears);
  }

  /** Dividing a product by one of its non-zero factors leaves the other. */
  lemma CancelFactor(p: real, x: real)
    requires p != 0.0
    ensures (p * x) / p == x
  {
  }
}
