/** The Capital Asset Pricing Model: `E(Ri) = Rf + beta * (E(Rm) - Rf)`,
    the market risk premium and Jensen's alpha. Every input passes an
    `is_finite` gate first. */
module Capm {
  import opened Types

  /** Every input finite, and a non-negative risk-free rate; beta may be
      negative. Every failure is reported as an invalid rate. */
  function ValidateCapmInputs(riskFreeRate: F64, beta: F64, marketRiskPremium: F64): (res: Result<()>)
    ensures res.Ok? <==>
      riskFreeRate.Finite? && beta.Finite? && marketRiskPremium.Finite? && 0.0 <= riskFreeRate.v
    ensures res.Err? ==> res.error == InvalidInterestRate
  {
    if !riskFreeRate.Finite? || !beta.Finite? || !marketRiskPremium.Finite? then Err(InvalidInterestRate)
    else if riskFreeRate.v < 0.0 then Err(InvalidInterestRate)
    else Ok(())
  }

  /** Expected return of an asset on the security market line. */
  function ExpectedReturn(riskFreeRate: F64, beta: F64, marketRiskPremium: F64): (res: Result<real>)
    ensures res.Err? <==> ValidateCapmInputs(riskFreeRate, beta, marketRiskPremium).Err?
    ensures res.Err? ==> res.error == InvalidInterestRate
  {
    var _ :- ValidateCapmInputs(riskFreeRate, beta, marketRiskPremium);
    Ok(riskFreeRate.v + beta.v * marketRiskPremium.v)
  }

  /** The market risk premium `E(Rm) - Rf`; a negative risk-free rate is
      accepted here. */
  function MarketRiskPremium(marketReturn: F64, riskFreeRate: F64): (res: Result<real>)
    ensures res.Ok? <==> marketReturn.Finite? && riskFreeRate.Finite?
    ensures res.Err? ==> res.error == InvalidInterestRate
    ensures res.Ok? ==> riskFreeRate.v + res.value == marketReturn.v
  {
    if !marketReturn.Finite? || !riskFreeRate.Finite? then Err(InvalidInterestRate)
    else Ok(marketReturn.v - riskFreeRate.v)
  }

  /** Jensen's alpha: the return achieved above the expected one. */
  function CapmAlpha(actualReturn: F64, expectedReturn: F64): (res: Result<real>)
    ensures res.Ok? <==> actualReturn.Finite? && expectedReturn.Finite?
    ensures res.Err? ==> res.error == InvalidInterestRate
    ensures res.Ok? ==> expectedReturn.v + res.value == actualReturn.v
    ensures res.Ok? ==> (0.0 < res.value <==> expectedReturn.v < actualReturn.v)
  {
    if !actualReturn.Finite? || !expectedReturn.Finite? then Err(InvalidInterestRate)
    else Ok(actualReturn.v - expectedReturn.v)
  }

  /** An asset with no systematic risk earns the risk-free rate. */
  lemma ZeroBetaEarnsRiskFree(riskFreeRate: real, marketRiskPremium: real)
    requires 0.0 <= riskFreeRate
    ensures ExpectedReturn(Finite(riskFreeRate), Finite(0.0), Finite(marketRiskPremium)).Ok?
    ensures ExpectedReturn(Finite(riskFreeRate), Finite(0.0), Finite(marketRiskPremium)).value == riskFreeRate
  {
    assert 0.0 * marketRiskPremium == 0.0;
  }

  /** An asset that moves with the market earns the full premium. */
  lemma UnitBetaEarnsPremium(riskFreeRate: real, marketRiskPremium: real)
    requires 0.0 <= riskFreeRate
    ensures ExpectedReturn(Finite(riskFreeRate), Finite(1.0), Finite(marketRiskPremium)).Ok?
    ensures ExpectedReturn(Finite(riskFreeRate), Finite(1.0), Finite(marketRiskPremium)).value ==
      riskFreeRate + marketRiskPremium
  {
    assert 1.0 * marketRiskPremium == marketRiskPremium;
  }

  /** The security market line passes through the market: a beta of one,
      priced with the market's own premium, expects the market return. */
  lemma MarketOnSecurityMarketLine(marketReturn: real, riskFreeRate: real)
    requires 0.0 <= riskFreeRate
    ensures MarketRiskPremium(Finite(marketReturn), Finite(riskFreeRate)).Ok?
    ensures var premium := MarketRiskPremium(Finite(marketReturn), Finite(riskFreeRate)).value;
      ExpectedReturn(Finite(riskFreeRate), Finite(1.0), Finite(premium)).Ok? &&
      ExpectedReturn(Finite(riskFreeRate), Finite(1.0), Finite(premium)).value == marketReturn
  {
    var premium := MarketRiskPremium(Finite(marketReturn), Finite(riskFreeRate)).value;
    UnitBetaEarnsPremium(riskFreeRate, premium);
  }

  /** Expected returns are linear in beta: the spread between two assets is
      their beta spread times the premium. */
  lemma ExpectedReturnLinearInBeta(riskFreeRate: real, beta1: real, beta2: real, marketRiskPremium: real)
    requires 0.0 <= riskFreeRate
    ensures ExpectedReturn(Finite(riskFreeRate), Finite(beta1), Finite(marketRiskPremium)).Ok?
    ensures ExpectedReturn(Finite(riskFreeRate), Finite(beta2), Finite(marketRiskPremium)).Ok?
    ensures ExpectedReturn(Finite(riskFreeRate), Finite(beta1), Finite(marketRiskPremium)).value -
      ExpectedReturn(Finite(riskFreeRate), Finite(beta2), Finite(marketRiskPremium)).value ==
      (beta1 - beta2) * marketRiskPremium
  {
    assert beta1 * marketRiskPremium - beta2 * marketRiskPremium == (beta1 - beta2) * marketRiskPremium;
  }

  /** An asset that earns exactly what CAPM expects has no alpha. */
  lemma NoAlphaOnTheLine(riskFreeRate: real, beta: real, marketRiskPremium: real)
    requires 0.0 <= riskFreeRate
    ensures ExpectedReturn(Finite(riskFreeRate), Finite(beta), Finite(marketRiskPremium)).Ok?
    ensures var e := ExpectedReturn(Finite(riskFreeRate), Finite(beta), Finite(marketRiskPremium)).value;
      CapmAlpha(Finite(e), Finite(e)).Ok? && CapmAlpha(Finite(e), Finite(e)).value == 0.0
  {
  }
}
