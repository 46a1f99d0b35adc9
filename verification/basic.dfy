/** Future and present value of a single sum under periodic compounding,
    with an integer number of periods. */
module TimeValueBasic {
  import opened Types
  import opened Elementary

  /** `pv * (1 + r)^n`, for a non-negative present value and a rate above -100%. */
  function FutureValue(presentValue: real, interestRate: real, periods: nat): (res: Result<real>)
    ensures res == Err(InvalidMonetaryValue) <==> presentValue < 0.0
    ensures res == Err(InvalidInterestRate) <==> 0.0 <= presentValue && interestRate <= -1.0
    ensures res.Ok? ==> 0.0 <= res.value
  {
    if presentValue < 0.0 then Err(InvalidMonetaryValue)
    else if interestRate <= -1.0 then Err(InvalidInterestRate)
    else
      var compoundFactor := Powi(1.0 + interestRate, periods);
      Ok(presentValue * compoundFactor)
  }

  /** `fv / (1 + r)^n`, for a non-negative future value and a rate above -100%. */
  function PresentValue(futureValue: real, interestRate: real, periods: nat): (res: Result<real>)
    ensures res == Err(InvalidMonetaryValue) <==> futureValue < 0.0
    ensures res == Err(InvalidInterestRate) <==> 0.0 <= futureValue && interestRate <= -1.0
    ensures res != Err(DivisionByZero)
    ensures res.Ok? ==> 0.0 <= res.value
  {
    if futureValue < 0.0 then Err(InvalidMonetaryValue)
    else if interestRate <= -1.0 then Err(InvalidInterestRate)
    else
      var compoundFactor := Powi(1.0 + interestRate, periods);
      if compoundFactor == 0.0 then Err(DivisionByZero)
      else Ok(futureValue / compoundFactor)
  }

  /** Discounting undoes compounding: back to the original present value. */
  lemma PresentOfFutureValue(pv: real, r: real, n: nat)
    requires 0.0 <= pv && -1.0 < r
    ensures FutureValue(pv, r, n).Ok?
    ensures PresentValue(FutureValue(pv, r, n).value, r, n) == Ok(pv)
  {
    var f := Powi(1.0 + r, n);
    assert 0.0 < f;
    assert FutureValue(pv, r, n).Ok?;
    assert FutureValue(pv, r, n).value == pv * f;
    assert PresentValue(pv * f, r, n) == Ok((pv * f) / f);
    assert (pv * f) / f == pv;
  }

  /** Compounding undoes discounting: back to the original future value. */
  lemma FutureOfPresentValue(fv: real, r: real, n: nat)
    requires 0.0 <= fv && -1.0 < r
    ensures PresentValue(fv, r, n).Ok?
    ensures FutureValue(PresentValue(fv, r, n).value, r, n) == Ok(fv)
  {
    var f := Powi(1.0 + r, n);
    assert 0.0 < f;
    assert PresentValue(fv, r, n) == Ok(fv / f);
    assert FutureValue(fv / f, r, n).Ok?;
    assert FutureValue(fv / f, r, n).value == (fv / f) * f;
    assert (fv / f) * f == fv;
  }

  /** A zero rate, or no periods at all, leaves the amount unchanged both ways. */
  lemma {:induction false} NeutralCompounding(x: real, r: real, n: nat)
    requires 0.0 <= x && -1.0 < r
    requires r == 0.0 || n == 0
    ensures FutureValue(x, r, n) == Ok(x)
    ensures PresentValue(x, r, n) == Ok(x)
  {
    if r == 0.0 {
      PowiOfOne(n);
    }
  }

  /** One more period multiplies the future value by `1 + r`. */
  lemma FutureValueStep(pv: real, r: real, n: nat)
    requires 0.0 <= pv && -1.0 < r
    ensures FutureValue(pv, r, n + 1).Ok? && FutureValue(pv, r, n).Ok?
    ensures FutureValue(pv, r, n + 1).value == FutureValue(pv, r, n).value * (1.0 + r)
  {
    var f := Powi(1.0 + r, n);
    PowiStep(1.0 + r, n);
    assert pv * ((1.0 + r) * f) == (pv * f) * (1.0 + r);
  }
}
