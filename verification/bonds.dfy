/** Fixed-coupon bonds: building the cash-flow schedule, the market price,
    Macaulay and modified duration, convexity and the convexity adjustment.
    Cash flows fall on whole periods, so the discount `(1 + y)^-t` is an
    exact integer power. */
module Bonds {
  import opened Types
  import opened Elementary

  /** One payment: the period it falls in and its amount. */
  datatype CashFlow = CashFlow(period: nat, amount: real)

  /** A bond: its payments in order and its yield to maturity. */
  datatype Bond = Bond(cashFlows: seq<CashFlow>, ytm: real)

  // ---------------------------------------------------------------------
  // Construction
  // ---------------------------------------------------------------------

  /** One coupon in each of the periods `1..k`. */
  function Coupons(couponPayment: real, k: nat): (flows: seq<CashFlow>)
    ensures |flows| == k
  {
    if k == 0 then [] else Coupons(couponPayment, k - 1) + [CashFlow(k, couponPayment)]
  }

  /** A coupon in each of the periods `1..periods`, with the face value
      added to the last one. */
  function CouponSchedule(couponPayment: real, faceValue: real, periods: nat): (flows: seq<CashFlow>)
    ensures |flows| == periods
  {
    if periods == 0 then []
    else Coupons(couponPayment, periods - 1) + [CashFlow(periods, couponPayment + faceValue)]
  }

  /** Payment `i` of `k` coupons falls in period `i + 1` and is the coupon. */
  lemma {:induction false} CouponsShape(couponPayment: real, k: nat)
    ensures forall i :: 0 <= i < k ==> Coupons(couponPayment, k)[i] == CashFlow(i + 1, couponPayment)
  {
    if k > 0 {
      CouponsShape(couponPayment, k - 1);
    }
  }

  /** A schedule has exactly `periods` payments; payment `i` falls in
      period `i + 1`; every payment is the coupon except the last, which
      adds the face value. */
  lemma CouponScheduleShape(couponPayment: real, faceValue: real, periods: nat)
    ensures var flows := CouponSchedule(couponPayment, faceValue, periods);
      |flows| == periods &&
      (forall i :: 0 <= i < periods ==> flows[i].period == i + 1) &&
      (forall i :: 0 <= i < periods - 1 ==> flows[i].amount == couponPayment) &&
      (0 < periods ==> flows[periods - 1].amount == couponPayment + faceValue)
  {
    if 0 < periods {
      CouponsShape(couponPayment, periods - 1);
    }
  }

  /** The bond `new_coupon_bond` builds: the face value must be positive,
      then the coupon rate non-negative and the yield above -100%. */
  function CouponBond(faceValue: real, couponRate: real, periods: nat, ytm: real): (res: Result<Bond>)
    ensures res == Err(InvalidMonetaryValue) <==> faceValue <= 0.0
    ensures res == Err(InvalidInterestRate) <==> 0.0 < faceValue && (couponRate < 0.0 || ytm <= -1.0)
    ensures res.Ok? <==> 0.0 < faceValue && 0.0 <= couponRate && -1.0 < ytm
    ensures res.Ok? ==> res.value.ytm == ytm
    ensures res.Ok? ==> res.value.cashFlows == CouponSchedule(faceValue * couponRate, faceValue, periods)
  {
    if faceValue <= 0.0 then Err(InvalidMonetaryValue)
    else if couponRate < 0.0 || ytm <= -1.0 then Err(InvalidInterestRate)
    else Ok(Bond(CouponSchedule(faceValue * couponRate, faceValue, periods), ytm))
  }

  /** Builds the schedule one coupon at a time, then adds the face value to
      the last payment, if there is one. */
  method NewCouponBond(faceValue: real, couponRate: real, periods: nat, ytm: real) returns (r: Result<Bond>)
    ensures r == CouponBond(faceValue, couponRate, periods, ytm)
  {
    if faceValue <= 0.0 {
      return Err(InvalidMonetaryValue);
    }
    if couponRate < 0.0 || ytm <= -1.0 {
      return Err(InvalidInterestRate);
    }
    var couponPayment := faceValue * couponRate;
    var cashFlows: seq<CashFlow> := [];
    for t := 1 to periods + 1
      invariant cashFlows == Coupons(couponPayment, t - 1)
    {
      cashFlows := cashFlows + [CashFlow(t, couponPayment)];
    }
    if |cashFlows| > 0 {
      var last := |cashFlows| - 1;
      cashFlows := cashFlows[last := cashFlows[last].(amount := cashFlows[last].amount + faceValue)];
      assert cashFlows == Coupons(couponPayment, periods - 1) + [CashFlow(periods, couponPayment + faceValue)];
    }
    return Ok(Bond(cashFlows, ytm));
  }

  // ---------------------------------------------------------------------
  // Discounting
  // ---------------------------------------------------------------------

  /** `(1 + y)^-t`. */
  function Discount(ytm: real, period: nat): (d: real)
    requires -1.0 < ytm
    ensures 0.0 < d
  {
    1.0 / Powi(1.0 + ytm, period)
  }

  /** Present value of one payment. */
  function PresentValue(cashFlow: CashFlow, ytm: real): real
    requires -1.0 < ytm
  {
    cashFlow.amount * Discount(ytm, cashFlow.period)
  }

  /** `t^2 + t`, the convexity weight of period `t`. */
  function TimeFactor(period: nat): real
  {
    (period as real) * (period as real) + (period as real)
  }

  /** Sum of present values, accumulated in schedule order. */
  function PriceSum(flows: seq<CashFlow>, ytm: real): real
    requires -1.0 < ytm
  {
    if |flows| == 0 then 0.0
    else PriceSum(flows[..|flows| - 1], ytm) + PresentValue(flows[|flows| - 1], ytm)
  }

  /** Sum of present values weighted by their periods. */
  function TimeWeightedSum(flows: seq<CashFlow>, ytm: real): real
    requires -1.0 < ytm
  {
    if |flows| == 0 then 0.0
    else
      var cashFlow := flows[|flows| - 1];
      TimeWeightedSum(flows[..|flows| - 1], ytm) + PresentValue(cashFlow, ytm) * (cashFlow.period as real)
  }

  /** Sum of present values weighted by `t^2 + t`. */
  function ConvexitySum(flows: seq<CashFlow>, ytm: real): real
    requires -1.0 < ytm
  {
    if |flows| == 0 then 0.0
    else
      var cashFlow := flows[|flows| - 1];
      ConvexitySum(flows[..|flows| - 1], ytm) + ConvexityTerm(cashFlow, ytm)
  }

  /** One payment's contribution to the convexity sum. */
  function ConvexityTerm(cashFlow: CashFlow, ytm: real): real
    requires -1.0 < ytm
  {
    cashFlow.amount * Discount(ytm, cashFlow.period) * TimeFactor(cashFlow.period)
  }

  // ---------------------------------------------------------------------
  // Price, duration and convexity: specifications
  // ---------------------------------------------------------------------

  /** The market price: the present value of every payment, for a yield
      above -100%. */
  function Price(bond: Bond): (res: Result<real>)
    ensures res.Err? <==> bond.ytm <= -1.0
    ensures res.Err? ==> res.error == InvalidInterestRate
  {
    if bond.ytm <= -1.0 then Err(InvalidInterestRate)
    else Ok(PriceSum(bond.cashFlows, bond.ytm))
  }

  /** Macaulay duration: the present-value-weighted mean time of the
      payments. A zero price is reported rather than divided by. */
  function Duration(bond: Bond): (res: Result<real>)
    ensures Price(bond).Err? ==> res == Price(bond)
    ensures Price(bond).Ok? && Price(bond).value == 0.0 ==> res == Err(DivisionByZero)
    ensures res.Ok? <==> Price(bond).Ok? && Price(bond).value != 0.0
    ensures res.Ok? ==> res.value * Price(bond).value == TimeWeightedSum(bond.cashFlows, bond.ytm)
  {
    var marketPrice :- Price(bond);
    if marketPrice == 0.0 then Err(DivisionByZero)
    else Ok(TimeWeightedSum(bond.cashFlows, bond.ytm) / marketPrice)
  }

  /** Convexity: the `t^2 + t` weighted sum over the price times `(1 + y)^2`. */
  function Convexity(bond: Bond): (res: Result<real>)
    ensures Price(bond).Err? ==> res == Price(bond)
    ensures Price(bond).Ok? && Price(bond).value == 0.0 ==> res == Err(DivisionByZero)
    ensures res.Ok? <==> Price(bond).Ok? && Price(bond).value != 0.0
  {
    var marketPrice :- Price(bond);
    if marketPrice == 0.0 then Err(DivisionByZero)
    else Ok(ConvexityRatio(ConvexitySum(bond.cashFlows, bond.ytm), marketPrice, 1.0 + bond.ytm))
  }

  /** The weighted sum over the price times the squared yield factor. */
  function ConvexityRatio(convexitySum: real, marketPrice: real, yieldFactor: real): real
    requires marketPrice != 0.0 && 0.0 < yieldFactor
  {
    convexitySum / (marketPrice * yieldFactor * yieldFactor)
  }

  /** Convexity undoes its division: times the price and the squared yield
      factor it gives back the weighted sum. */
  lemma ConvexityTimesPrice(bond: Bond)
    requires Convexity(bond).Ok?
    ensures Price(bond).Ok? && Price(bond).value != 0.0
    ensures Convexity(bond).value * (Price(bond).value * (1.0 + bond.ytm) * (1.0 + bond.ytm)) ==
      ConvexitySum(bond.cashFlows, bond.ytm)
  {
    RatioTimesDenominator(ConvexitySum(bond.cashFlows, bond.ytm), Price(bond).value, 1.0 + bond.ytm);
  }

  /** `(c / (p * y * y)) * (p * y * y) == c`. */
  lemma RatioTimesDenominator(c: real, p: real, y: real)
    requires p != 0.0 && 0.0 < y
    ensures ConvexityRatio(c, p, y) * (p * y * y) == c
  {
    NonZeroProduct(p, y);
    NonZeroProduct(p * y, y);
  }

  /** A product of non-zero factors is non-zero. */
  lemma NonZeroProduct(a: real, b: real)
    requires a != 0.0 && b != 0.0
    ensures a * b != 0.0
  {
  }

  /** Modified duration: the Macaulay duration over `1 + y`. */
  function ModifiedDuration(bond: Bond): (res: Result<real>)
    ensures res.Ok? <==> Duration(bond).Ok?
    ensures res.Err? ==> res == Duration(bond)
    ensures res.Ok? ==> res.value * (1.0 + bond.ytm) == Duration(bond).value
  {
    var macDuration :- Duration(bond);
    Ok(macDuration / (1.0 + bond.ytm))
  }

  /** Second-order price correction `C * dy^2`; a negative convexity is
      rejected. */
  function ConvexityAdjustment(convexity: real, yieldChange: real): (res: Result<real>)
    ensures res.Err? <==> convexity < 0.0
    ensures res.Err? ==> res.error == InvalidInput
    ensures res.Ok? ==> 0.0 <= res.value
    ensures res.Ok? && yieldChange == 0.0 ==> res.value == 0.0
  {
    if convexity < 0.0 then Err(InvalidInput)
    else
      MulLeftMono(convexity, 0.0, yieldChange * yieldChange);
      Ok(convexity * yieldChange * yieldChange)
  }

  // ---------------------------------------------------------------------
  // Price, duration and convexity: the loops
  // ---------------------------------------------------------------------

  method BondPrice(bond: Bond) returns (r: Result<real>)
    ensures r == Price(bond)
  {
    if bond.ytm <= -1.0 {
      return Err(InvalidInterestRate);
    }
    var price := 0.0;
    for i := 0 to |bond.cashFlows|
      invariant price == PriceSum(bond.cashFlows[..i], bond.ytm)
    {
      var cashFlow := bond.cashFlows[i];
      var discountFactor := Discount(bond.ytm, cashFlow.period);
      price := price + cashFlow.amount * discountFactor;
      assert bond.cashFlows[..i + 1][..i] == bond.cashFlows[..i];
    }
    assert bond.cashFlows[..|bond.cashFlows|] == bond.cashFlows;
    return Ok(price);
  }

  method MacaulayDuration(bond: Bond) returns (r: Result<real>)
    ensures r == Duration(bond)
  {
    var price := BondPrice(bond);
    if price.Err? {
      return Err(price.error);
    }
    var marketPrice := price.value;
    if marketPrice == 0.0 {
      return Err(DivisionByZero);
    }
    var weightedTimePv := 0.0;
    for i := 0 to |bond.cashFlows|
      invariant weightedTimePv == TimeWeightedSum(bond.cashFlows[..i], bond.ytm)
    {
      var cashFlow := bond.cashFlows[i];
      var discountFactor := Discount(bond.ytm, cashFlow.period);
      var presentValue := cashFlow.amount * discountFactor;
      weightedTimePv := weightedTimePv + presentValue * (cashFlow.period as real);
      assert bond.cashFlows[..i + 1][..i] == bond.cashFlows[..i];
    }
    assert bond.cashFlows[..|bond.cashFlows|] == bond.cashFlows;
    return Ok(weightedTimePv / marketPrice);
  }

  method BondConvexity(bond: Bond) returns (r: Result<real>)
    ensures r == Convexity(bond)
  {
    var price := BondPrice(bond);
    if price.Err? {
      return Err(price.error);
    }
    var marketPrice := price.value;
    if marketPrice == 0.0 {
      return Err(DivisionByZero);
    }
    var convexitySum := 0.0;
    var yieldFactor := 1.0 + bond.ytm;
    for i := 0 to |bond.cashFlows|
      invariant convexitySum == ConvexitySum(bond.cashFlows[..i], bond.ytm)
    {
      var cashFlow := bond.cashFlows[i];
      var discountFactor := Discount(bond.ytm, cashFlow.period);
      var timeFactor := TimeFactor(cashFlow.period);
      convexitySum := convexitySum + cashFlow.amount * discountFactor * timeFactor;
      assert bond.cashFlows[..i + 1][..i] == bond.cashFlows[..i];
    }
    assert bond.cashFlows[..|bond.cashFlows|] == bond.cashFlows;
    return Ok(ConvexityRatio(convexitySum, marketPrice, yieldFactor));
  }

  // ---------------------------------------------------------------------
  // Relations kept whole
  //
  // The proofs below pass arithmetic facts between lemmas wrapped in these
  // predicates, so that a fact is matched as a whole rather than re-derived
  // by nonlinear arithmetic; only small lemmas over plain reals open them.
  // ---------------------------------------------------------------------

  /** `total == a + b`. */
  predicate IsSum(total: real, a: real, b: real) {
    total == a + b
  }

  /** `x == a * b`. */
  predicate IsProduct(x: real, a: real, b: real) {
    x == a * b
  }

  /** `y * a == 1 - d`: an annuity factor `a` in closed form against the
      discount factor `d` of its last period. */
  predicate ClosedForm(y: real, a: real, d: real) {
    y * a == 1.0 - d
  }

  /** `(1 + y) * d == previous`: `d` discounts one period more than
      `previous`. */
  predicate OneMorePeriod(y: real, d: real, previous: real) {
    (1.0 + y) * d == previous
  }

  /** `price == coupon * annuity + faceValue * d`. */
  predicate PriceForm(price: real, coupon: real, annuity: real, faceValue: real, d: real) {
    price == coupon * annuity + faceValue * d
  }

  /** `price - f == f * (c - y) * a`. */
  predicate ParGap(price: real, f: real, c: real, y: real, a: real) {
    price - f == f * (c - y) * a
  }

  /** `0 <= price <= weighted` and `0 <= convexity`. */
  predicate LowerBounded(price: real, weighted: real, convexity: real) {
    0.0 <= price <= weighted && 0.0 <= convexity
  }

  /** A weighted sum is at most `m` times the plain sum. */
  predicate WeightedWithin(weighted: real, price: real, m: real) {
    weighted <= m * price
  }

  // ---------------------------------------------------------------------
  // Sums over a schedule with one more payment
  // ---------------------------------------------------------------------

  /** Appending a payment adds its present value to the price. */
  lemma PriceOfSnoc(prefix: seq<CashFlow>, cashFlow: CashFlow, ytm: real)
    requires -1.0 < ytm
    ensures IsSum(PriceSum(prefix + [cashFlow], ytm), PriceSum(prefix, ytm), PresentValue(cashFlow, ytm))
  {
    assert (prefix + [cashFlow])[..|prefix|] == prefix;
  }

  /** Appending a payment adds its time-weighted present value to the
      time-weighted sum. */
  lemma WeightedOfSnoc(prefix: seq<CashFlow>, cashFlow: CashFlow, ytm: real)
    requires -1.0 < ytm
    ensures IsSum(TimeWeightedSum(prefix + [cashFlow], ytm), TimeWeightedSum(prefix, ytm),
      PresentValue(cashFlow, ytm) * (cashFlow.period as real))
  {
    assert (prefix + [cashFlow])[..|prefix|] == prefix;
  }

  /** Appending a payment adds its convexity term to the convexity sum. */
  lemma ConvexityOfSnoc(prefix: seq<CashFlow>, cashFlow: CashFlow, ytm: real)
    requires -1.0 < ytm
    ensures IsSum(ConvexitySum(prefix + [cashFlow], ytm), ConvexitySum(prefix, ytm), ConvexityTerm(cashFlow, ytm))
  {
    assert (prefix + [cashFlow])[..|prefix|] == prefix;
  }

  /** A non-empty schedule is its prefix with the last payment appended. */
  lemma LastSplit(flows: seq<CashFlow>)
    requires 0 < |flows|
    ensures flows == flows[..|flows| - 1] + [flows[|flows| - 1]]
  {
  }

  // ---------------------------------------------------------------------
  // Properties: the price of a built bond
  // ---------------------------------------------------------------------

  /** Sum of the discount factors of periods `1..k`: the price of an annuity
      paying one unit per period. */
  function AnnuityFactor(ytm: real, k: nat): (a: real)
    requires -1.0 < ytm
    ensures 0 < k ==> 0.0 < a
    ensures k == 0 ==> a == 0.0
  {
    if k == 0 then 0.0 else AnnuityFactor(ytm, k - 1) + Discount(ytm, k)
  }

  /** One more period adds one more discount factor. */
  lemma AnnuityStep(ytm: real, k: nat)
    requires -1.0 < ytm && 1 <= k
    ensures IsSum(AnnuityFactor(ytm, k), AnnuityFactor(ytm, k - 1), Discount(ytm, k))
  {
  }

  /** A payment's present value is its amount times its discount factor. */
  lemma PresentValueIs(cashFlow: CashFlow, ytm: real)
    requires -1.0 < ytm
    ensures IsProduct(PresentValue(cashFlow, ytm), cashFlow.amount, Discount(ytm, cashFlow.period))
  {
  }

  /** One more period discounts by `1 + y` once more. */
  lemma DiscountStep(ytm: real, k: nat)
    requires -1.0 < ytm && 1 <= k
    ensures OneMorePeriod(ytm, Discount(ytm, k), Discount(ytm, k - 1))
  {
    var b := 1.0 + ytm;
    var p := Powi(b, k - 1);
    PowiStep(b, k - 1);
    InverseOfProduct(b, p);
  }

  /** `b * (1 / (b * p)) == 1 / p`. */
  lemma InverseOfProduct(b: real, p: real)
    requires 0.0 < b && 0.0 < p
    ensures b * (1.0 / (b * p)) == 1.0 / p
  {
    var q := 1.0 / (b * p);
    assert q * (b * p) == 1.0;
    assert (b * q) * p == 1.0;
  }

  /** The annuity in closed form: `y * a(k) == 1 - (1 + y)^-k`. */
  lemma AnnuityClosedForm(ytm: real, k: nat)
    requires -1.0 < ytm
    ensures ytm * AnnuityFactor(ytm, k) == 1.0 - Discount(ytm, k)
  {
    AnnuityInduction(ytm, k);
  }

  /** The closed form, by induction on the number of periods. */
  lemma {:induction false} AnnuityInduction(ytm: real, k: nat)
    requires -1.0 < ytm
    ensures ClosedForm(ytm, AnnuityFactor(ytm, k), Discount(ytm, k))
  {
    if k == 0 {
      assert Powi(1.0 + ytm, 0) == 1.0;
    } else {
      AnnuityInduction(ytm, k - 1);
      DiscountStep(ytm, k);
      AnnuityStep(ytm, k);
      AnnuityStepAlgebra(ytm, AnnuityFactor(ytm, k - 1), Discount(ytm, k - 1), Discount(ytm, k), AnnuityFactor(ytm, k));
    }
  }

  /** The inductive step of the closed form, as plain algebra. */
  lemma AnnuityStepAlgebra(y: real, before: real, previous: real, d: real, a: real)
    requires ClosedForm(y, before, previous) && OneMorePeriod(y, d, previous) && IsSum(a, before, d)
    ensures ClosedForm(y, a, d)
  {
    assert y * a == y * before + y * d;
  }

  /** `k` coupons are worth the coupon times the annuity factor. */
  lemma {:induction false} CouponsPrice(couponPayment: real, ytm: real, k: nat)
    requires -1.0 < ytm
    ensures IsProduct(PriceSum(Coupons(couponPayment, k), ytm), couponPayment, AnnuityFactor(ytm, k))
  {
    if k > 0 {
      CouponsPrice(couponPayment, ytm, k - 1);
      CouponsStep(Coupons(couponPayment, k - 1), couponPayment, ytm, k);
    }
  }

  /** The inductive step of `CouponsPrice`: one more coupon adds one more
      discount factor. */
  lemma CouponsStep(prefix: seq<CashFlow>, couponPayment: real, ytm: real, k: nat)
    requires -1.0 < ytm && 0 < k
    requires IsProduct(PriceSum(prefix, ytm), couponPayment, AnnuityFactor(ytm, k - 1))
    ensures IsProduct(PriceSum(prefix + [CashFlow(k, couponPayment)], ytm), couponPayment, AnnuityFactor(ytm, k))
  {
    var cashFlow := CashFlow(k, couponPayment);
    PriceOfSnoc(prefix, cashFlow, ytm);
    PresentValueIs(cashFlow, ytm);
    AnnuityStep(ytm, k);
    CouponStepAlgebra(couponPayment, AnnuityFactor(ytm, k - 1), Discount(ytm, k), AnnuityFactor(ytm, k),
      PriceSum(prefix, ytm), PresentValue(cashFlow, ytm), PriceSum(prefix + [cashFlow], ytm));
  }

  /** `c * a' + c * d == c * (a' + d)`. */
  lemma CouponStepAlgebra(coupon: real, before: real, d: real, annuity: real,
                          previous: real, pv: real, total: real)
    requires IsProduct(previous, coupon, before) && IsProduct(pv, coupon, d)
    requires IsSum(annuity, before, d) && IsSum(total, previous, pv)
    ensures IsProduct(total, coupon, annuity)
  {
    assert coupon * annuity == coupon * before + coupon * d;
  }

  /** A whole coupon schedule is worth the coupon annuity plus the
      discounted face value. */
  lemma CouponSchedulePrice(coupon: real, faceValue: real, periods: nat, ytm: real)
    requires -1.0 < ytm && 1 <= periods
    ensures PriceForm(PriceSum(CouponSchedule(coupon, faceValue, periods), ytm),
      coupon, AnnuityFactor(ytm, periods), faceValue, Discount(ytm, periods))
  {
    CouponsPrice(coupon, ytm, periods - 1);
    LastPaymentStep(Coupons(coupon, periods - 1), coupon, faceValue, periods, ytm);
  }

  /** The last payment adds the coupon and the face value, both discounted
      over the whole term. */
  lemma LastPaymentStep(prefix: seq<CashFlow>, coupon: real, faceValue: real, periods: nat, ytm: real)
    requires -1.0 < ytm && 1 <= periods
    requires IsProduct(PriceSum(prefix, ytm), coupon, AnnuityFactor(ytm, periods - 1))
    ensures PriceForm(PriceSum(prefix + [CashFlow(periods, coupon + faceValue)], ytm),
      coupon, AnnuityFactor(ytm, periods), faceValue, Discount(ytm, periods))
  {
    var last := CashFlow(periods, coupon + faceValue);
    PriceOfSnoc(prefix, last, ytm);
    PresentValueIs(last, ytm);
    AnnuityStep(ytm, periods);
    LastStepAlgebra(coupon, faceValue, AnnuityFactor(ytm, periods - 1), Discount(ytm, periods), AnnuityFactor(ytm, periods),
      PriceSum(prefix, ytm), PresentValue(last, ytm), PriceSum(prefix + [last], ytm));
  }

  /** `c * a' + (c + F) * d == c * (a' + d) + F * d`. */
  lemma LastStepAlgebra(coupon: real, faceValue: real, before: real, d: real, annuity: real,
                        previous: real, pv: real, total: real)
    requires IsProduct(previous, coupon, before) && IsProduct(pv, coupon + faceValue, d)
    requires IsSum(annuity, before, d) && IsSum(total, previous, pv)
    ensures PriceForm(total, coupon, annuity, faceValue, d)
  {
    assert coupon * annuity == coupon * before + coupon * d;
  }

  /** What a successful construction builds. */
  lemma BuiltBond(faceValue: real, couponRate: real, periods: nat, ytm: real)
    requires 0.0 < faceValue && 0.0 <= couponRate && -1.0 < ytm
    ensures CouponBond(faceValue, couponRate, periods, ytm).Ok?
    ensures CouponBond(faceValue, couponRate, periods, ytm).value ==
      Bond(CouponSchedule(faceValue * couponRate, faceValue, periods), ytm)
  {
  }

  /** Above a yield of -100% the price is the sum of the discounted payments. */
  lemma PriceIsSum(flows: seq<CashFlow>, ytm: real)
    requires -1.0 < ytm
    ensures Price(Bond(flows, ytm)).Ok? && Price(Bond(flows, ytm)).value == PriceSum(flows, ytm)
  {
  }

  /** The price of a coupon bond: the coupons as an annuity plus the
      discounted face value, `F c a(n) + F (1 + y)^-n`. */
  lemma CouponBondPrice(faceValue: real, couponRate: real, periods: nat, ytm: real)
    requires 0.0 < faceValue && 0.0 <= couponRate && -1.0 < ytm && 1 <= periods
    ensures CouponBond(faceValue, couponRate, periods, ytm).Ok?
    ensures Price(CouponBond(faceValue, couponRate, periods, ytm).value).Ok?
    ensures PriceForm(Price(CouponBond(faceValue, couponRate, periods, ytm).value).value,
      faceValue * couponRate, AnnuityFactor(ytm, periods), faceValue, Discount(ytm, periods))
  {
    BuiltBond(faceValue, couponRate, periods, ytm);
    PriceIsSum(CouponSchedule(faceValue * couponRate, faceValue, periods), ytm);
    CouponSchedulePrice(faceValue * couponRate, faceValue, periods, ytm);
  }

  /** How far the price sits from par: `price - F == F (c - y) a(n)`. */
  lemma PriceAgainstPar(faceValue: real, couponRate: real, periods: nat, ytm: real)
    requires 0.0 < faceValue && 0.0 <= couponRate && -1.0 < ytm && 1 <= periods
    ensures CouponBond(faceValue, couponRate, periods, ytm).Ok?
    ensures Price(CouponBond(faceValue, couponRate, periods, ytm).value).Ok?
    ensures ParGap(Price(CouponBond(faceValue, couponRate, periods, ytm).value).value,
      faceValue, couponRate, ytm, AnnuityFactor(ytm, periods))
  {
    CouponBondPrice(faceValue, couponRate, periods, ytm);
    AnnuityInduction(ytm, periods);
    ParAlgebra(Price(CouponBond(faceValue, couponRate, periods, ytm).value).value,
      faceValue, couponRate, ytm, AnnuityFactor(ytm, periods), Discount(ytm, periods));
  }

  /** `F c a + F d - F == F (c - y) a` when `y a == 1 - d`. */
  lemma ParAlgebra(price: real, f: real, c: real, y: real, a: real, d: real)
    requires PriceForm(price, f * c, a, f, d) && ClosedForm(y, a, d)
    ensures ParGap(price, f, c, y, a)
  {
    assert f == f * (y * a) + f * d;
    assert f * (c - y) * a == f * c * a - f * (y * a);
  }

  /** A bond whose coupon rate equals its yield is priced at par, one whose
      coupon rate exceeds its yield at a premium, and one below at a
      discount. */
  lemma ParPremiumDiscount(faceValue: real, couponRate: real, periods: nat, ytm: real)
    requires 0.0 < faceValue && 0.0 <= couponRate && -1.0 < ytm && 1 <= periods
    ensures CouponBond(faceValue, couponRate, periods, ytm).Ok?
    ensures var price := Price(CouponBond(faceValue, couponRate, periods, ytm).value);
      price.Ok? &&
      (price.value == faceValue <==> couponRate == ytm) &&
      (faceValue < price.value <==> ytm < couponRate) &&
      (price.value < faceValue <==> couponRate < ytm)
  {
    PriceAgainstPar(faceValue, couponRate, periods, ytm);
    ParSigns(Price(CouponBond(faceValue, couponRate, periods, ytm).value).value,
      faceValue, couponRate, ytm, AnnuityFactor(ytm, periods));
  }

  /** With a positive face value and annuity, the gap to par has the sign
      of `c - y`. */
  lemma ParSigns(price: real, f: real, c: real, y: real, a: real)
    requires ParGap(price, f, c, y, a) && 0.0 < f && 0.0 < a
    ensures price == f <==> c == y
    ensures f < price <==> y < c
    ensures price < f <==> c < y
  {
    var x := c - y;
    assert price - f == x * (f * a);
    assert 0.0 < f * a;
    if 0.0 < x {
      assert 0.0 < x * (f * a);
    } else if x < 0.0 {
      assert 0.0 < (-x) * (f * a);
    }
  }

  // ---------------------------------------------------------------------
  // Properties: bounds on the sums, duration and convexity
  // ---------------------------------------------------------------------

  /** Payments are non-negative and fall in period 1 or later. */
  predicate NonNegativeFlows(flows: seq<CashFlow>) {
    forall i :: 0 <= i < |flows| ==> 0.0 <= flows[i].amount && 1 <= flows[i].period
  }

  /** Payments are non-negative and fall no later than `m`. */
  predicate FlowsWithin(flows: seq<CashFlow>, m: real) {
    forall i :: 0 <= i < |flows| ==> 0.0 <= flows[i].amount && (flows[i].period as real) <= m
  }

  /** Dropping the last payment keeps a schedule non-negative. */
  lemma NonNegativePrefix(flows: seq<CashFlow>)
    requires 0 < |flows| && NonNegativeFlows(flows)
    ensures NonNegativeFlows(flows[..|flows| - 1])
    ensures 0.0 <= flows[|flows| - 1].amount && 1 <= flows[|flows| - 1].period
  {
    var prefix := flows[..|flows| - 1];
    assert forall i :: 0 <= i < |prefix| ==> prefix[i] == flows[i];
  }

  /** Dropping the last payment keeps a schedule within `m`. */
  lemma WithinPrefix(flows: seq<CashFlow>, m: real)
    requires 0 < |flows| && FlowsWithin(flows, m)
    ensures FlowsWithin(flows[..|flows| - 1], m)
    ensures 0.0 <= flows[|flows| - 1].amount && (flows[|flows| - 1].period as real) <= m
  {
    var prefix := flows[..|flows| - 1];
    assert forall i :: 0 <= i < |prefix| ==> prefix[i] == flows[i];
  }

  /** Schedules of non-negative payments in periods `1..maturity` have a
      non-negative price and convexity sum, and their time-weighted sum lies
      between the price and `maturity` times the price. */
  lemma NonNegativeFlowSums(flows: seq<CashFlow>, ytm: real, maturity: nat)
    requires -1.0 < ytm
    requires forall i :: 0 <= i < |flows| ==> 0.0 <= flows[i].amount && 1 <= flows[i].period <= maturity
    ensures LowerBounded(PriceSum(flows, ytm), TimeWeightedSum(flows, ytm), ConvexitySum(flows, ytm))
    ensures WeightedWithin(TimeWeightedSum(flows, ytm), PriceSum(flows, ytm), maturity as real)
  {
    assert NonNegativeFlows(flows);
    LowerSums(flows, ytm);
    assert FlowsWithin(flows, maturity as real);
    UpperWeightedSum(flows, ytm, maturity as real);
  }

  /** The price and the convexity sum are non-negative, and the price is at
      most the time-weighted sum. */
  lemma {:induction false} LowerSums(flows: seq<CashFlow>, ytm: real)
    requires -1.0 < ytm && NonNegativeFlows(flows)
    ensures LowerBounded(PriceSum(flows, ytm), TimeWeightedSum(flows, ytm), ConvexitySum(flows, ytm))
  {
    if |flows| > 0 {
      NonNegativePrefix(flows);
      LowerSums(flows[..|flows| - 1], ytm);
      LowerSumsStep(flows[..|flows| - 1], flows[|flows| - 1], ytm);
      LastSplit(flows);
    }
  }

  /** The inductive step of `LowerSums`. */
  lemma LowerSumsStep(prefix: seq<CashFlow>, cashFlow: CashFlow, ytm: real)
    requires -1.0 < ytm && 0.0 <= cashFlow.amount && 1 <= cashFlow.period
    requires LowerBounded(PriceSum(prefix, ytm), TimeWeightedSum(prefix, ytm), ConvexitySum(prefix, ytm))
    ensures var flows := prefix + [cashFlow];
      LowerBounded(PriceSum(flows, ytm), TimeWeightedSum(flows, ytm), ConvexitySum(flows, ytm))
  {
    LowerTermBounds(cashFlow, ytm);
    PriceOfSnoc(prefix, cashFlow, ytm);
    WeightedOfSnoc(prefix, cashFlow, ytm);
    ConvexityOfSnoc(prefix, cashFlow, ytm);
    LowerStep(PriceSum(prefix, ytm), TimeWeightedSum(prefix, ytm), ConvexitySum(prefix, ytm),
      PresentValue(cashFlow, ytm), PresentValue(cashFlow, ytm) * (cashFlow.period as real), ConvexityTerm(cashFlow, ytm),
      PriceSum(prefix + [cashFlow], ytm), TimeWeightedSum(prefix + [cashFlow], ytm), ConvexitySum(prefix + [cashFlow], ytm));
  }

  /** The lower bounds survive adding a payment whose terms keep them. */
  lemma LowerStep(price: real, weighted: real, convexity: real, pv: real, weightedPv: real, convexityTerm: real,
                  price': real, weighted': real, convexity': real)
    requires LowerBounded(price, weighted, convexity) && LowerBounded(pv, weightedPv, convexityTerm)
    requires IsSum(price', price, pv) && IsSum(weighted', weighted, weightedPv) && IsSum(convexity', convexity, convexityTerm)
    ensures LowerBounded(price', weighted', convexity')
  {
  }

  /** The time-weighted sum is at most `m` times the price when no payment
      falls after `m`. */
  lemma {:induction false} UpperWeightedSum(flows: seq<CashFlow>, ytm: real, m: real)
    requires -1.0 < ytm && FlowsWithin(flows, m)
    ensures WeightedWithin(TimeWeightedSum(flows, ytm), PriceSum(flows, ytm), m)
  {
    if |flows| > 0 {
      WithinPrefix(flows, m);
      UpperWeightedSum(flows[..|flows| - 1], ytm, m);
      UpperSumStep(flows[..|flows| - 1], flows[|flows| - 1], ytm, m);
      LastSplit(flows);
    }
  }

  /** The inductive step of `UpperWeightedSum`. */
  lemma UpperSumStep(prefix: seq<CashFlow>, cashFlow: CashFlow, ytm: real, m: real)
    requires -1.0 < ytm && 0.0 <= cashFlow.amount && (cashFlow.period as real) <= m
    requires WeightedWithin(TimeWeightedSum(prefix, ytm), PriceSum(prefix, ytm), m)
    ensures WeightedWithin(TimeWeightedSum(prefix + [cashFlow], ytm), PriceSum(prefix + [cashFlow], ytm), m)
  {
    WeightedTermBound(cashFlow, ytm, m);
    PriceOfSnoc(prefix, cashFlow, ytm);
    WeightedOfSnoc(prefix, cashFlow, ytm);
    UpperStep(TimeWeightedSum(prefix, ytm), PriceSum(prefix, ytm),
      PresentValue(cashFlow, ytm) * (cashFlow.period as real), PresentValue(cashFlow, ytm), m,
      TimeWeightedSum(prefix + [cashFlow], ytm), PriceSum(prefix + [cashFlow], ytm));
  }

  /** `w <= m * p` survives adding a payment whose terms keep it. */
  lemma UpperStep(weighted: real, price: real, weightedPv: real, pv: real, m: real, weighted': real, price': real)
    requires WeightedWithin(weighted, price, m) && WeightedWithin(weightedPv, pv, m)
    requires IsSum(weighted', weighted, weightedPv) && IsSum(price', price, pv)
    ensures WeightedWithin(weighted', price', m)
  {
    assert m * price' == m * price + m * pv;
  }

  /** One payment's time weight is at most `m` times its present value. */
  lemma WeightedTermBound(cashFlow: CashFlow, ytm: real, m: real)
    requires -1.0 < ytm
    requires 0.0 <= cashFlow.amount && (cashFlow.period as real) <= m
    ensures WeightedWithin(PresentValue(cashFlow, ytm) * (cashFlow.period as real), PresentValue(cashFlow, ytm), m)
  {
    var pv := PresentValue(cashFlow, ytm);
    MulLeftMono(Discount(ytm, cashFlow.period), 0.0, cashFlow.amount);
    MulLeftMono(pv, cashFlow.period as real, m);
  }

  /** One payment's terms are non-negative, and its time weight is at least
      its present value. */
  lemma LowerTermBounds(cashFlow: CashFlow, ytm: real)
    requires -1.0 < ytm
    requires 0.0 <= cashFlow.amount && 1 <= cashFlow.period
    ensures LowerBounded(PresentValue(cashFlow, ytm), PresentValue(cashFlow, ytm) * (cashFlow.period as real),
      ConvexityTerm(cashFlow, ytm))
  {
    var d := Discount(ytm, cashFlow.period);
    var p := cashFlow.period as real;
    var pv := PresentValue(cashFlow, ytm);
    MulLeftMono(d, 0.0, cashFlow.amount);
    assert pv == cashFlow.amount * d;
    MulLeftMono(pv, 1.0, p);
    var tf := TimeFactor(cashFlow.period);
    assert 0.0 <= tf;
    MulLeftMono(tf, 0.0, pv);
    assert ConvexityTerm(cashFlow, ytm) == pv * tf;
  }

  /** A positive payment has a positive present value and convexity term. */
  lemma PositiveTerms(cashFlow: CashFlow, ytm: real)
    requires -1.0 < ytm && 0.0 < cashFlow.amount && 1 <= cashFlow.period
    ensures 0.0 < PresentValue(cashFlow, ytm) && 0.0 < ConvexityTerm(cashFlow, ytm)
  {
    var pv := PresentValue(cashFlow, ytm);
    MulPositive(cashFlow.amount, Discount(ytm, cashFlow.period));
    var p := cashFlow.period as real;
    var tf := TimeFactor(cashFlow.period);
    MulPositive(p, p);
    assert ConvexityTerm(cashFlow, ytm) == pv * tf;
    MulPositive(pv, tf);
  }

  /** Coupons that are non-negative make a non-negative schedule. */
  lemma CouponsNonNegative(couponPayment: real, k: nat)
    requires 0.0 <= couponPayment
    ensures NonNegativeFlows(Coupons(couponPayment, k)) && FlowsWithin(Coupons(couponPayment, k), k as real)
  {
    CouponsShape(couponPayment, k);
  }

  /** A coupon schedule with a non-negative coupon and a positive face value
      over at least one period has a positive price and convexity sum, and a
      time-weighted sum between the price and `periods` times the price. */
  lemma CouponScheduleSums(coupon: real, faceValue: real, periods: nat, ytm: real)
    requires 0.0 <= coupon && 0.0 < faceValue && -1.0 < ytm && 1 <= periods
    ensures var flows := CouponSchedule(coupon, faceValue, periods);
      0.0 < PriceSum(flows, ytm) && 0.0 < ConvexitySum(flows, ytm) &&
      LowerBounded(PriceSum(flows, ytm), TimeWeightedSum(flows, ytm), ConvexitySum(flows, ytm)) &&
      WeightedWithin(TimeWeightedSum(flows, ytm), PriceSum(flows, ytm), periods as real)
  {
    var coupons := Coupons(coupon, periods - 1);
    CouponsNonNegative(coupon, periods - 1);
    LowerSums(coupons, ytm);
    UpperWeightedSum(coupons, ytm, (periods - 1) as real);
    ScheduleSumsStep(coupons, CashFlow(periods, coupon + faceValue), ytm);
  }

  /** A positive last payment, in a period no earlier than any before it,
      keeps the bounds and makes the price and convexity sum positive. */
  lemma ScheduleSumsStep(prefix: seq<CashFlow>, last: CashFlow, ytm: real)
    requires -1.0 < ytm && 0.0 < last.amount && 1 <= last.period
    requires LowerBounded(PriceSum(prefix, ytm), TimeWeightedSum(prefix, ytm), ConvexitySum(prefix, ytm))
    requires WeightedWithin(TimeWeightedSum(prefix, ytm), PriceSum(prefix, ytm), (last.period - 1) as real)
    ensures var flows := prefix + [last];
      0.0 < PriceSum(flows, ytm) && 0.0 < ConvexitySum(flows, ytm) &&
      LowerBounded(PriceSum(flows, ytm), TimeWeightedSum(flows, ytm), ConvexitySum(flows, ytm)) &&
      WeightedWithin(TimeWeightedSum(flows, ytm), PriceSum(flows, ytm), last.period as real)
  {
    var m := last.period as real;
    LowerSumsStep(prefix, last, ytm);
    PositiveTerms(last, ytm);
    PriceOfSnoc(prefix, last, ytm);
    ConvexityOfSnoc(prefix, last, ytm);
    WidenBound(TimeWeightedSum(prefix, ytm), PriceSum(prefix, ytm), ConvexitySum(prefix, ytm), (last.period - 1) as real, m);
    UpperSumStep(prefix, last, ytm, m);
  }

  /** A bound by `m` is a bound by any larger `m'`, for a non-negative
      price. */
  lemma WidenBound(weighted: real, price: real, convexity: real, m: real, m': real)
    requires LowerBounded(price, weighted, convexity) && WeightedWithin(weighted, price, m) && m <= m'
    ensures WeightedWithin(weighted, price, m')
  {
    MulLeftMono(price, m, m');
    assert m * price <= m' * price;
  }

  /** A bond built with a positive face value over at least one period has
      a positive price and convexity sum, and a time-weighted sum between
      the price and `periods` times the price. */
  lemma CouponBondSums(faceValue: real, couponRate: real, periods: nat, ytm: real)
    requires 0.0 < faceValue && 0.0 <= couponRate && -1.0 < ytm && 1 <= periods
    ensures CouponBond(faceValue, couponRate, periods, ytm).Ok?
    ensures CouponBond(faceValue, couponRate, periods, ytm).value.ytm == ytm
    ensures var flows := CouponBond(faceValue, couponRate, periods, ytm).value.cashFlows;
      0.0 < PriceSum(flows, ytm) && 0.0 < ConvexitySum(flows, ytm) &&
      LowerBounded(PriceSum(flows, ytm), TimeWeightedSum(flows, ytm), ConvexitySum(flows, ytm)) &&
      WeightedWithin(TimeWeightedSum(flows, ytm), PriceSum(flows, ytm), periods as real)
  {
    BuiltBond(faceValue, couponRate, periods, ytm);
    MulLeftMono(faceValue, 0.0, couponRate);
    CouponScheduleSums(faceValue * couponRate, faceValue, periods, ytm);
  }

  /** With a non-zero price, duration and convexity are the sums' ratios. */
  lemma RatiosOfSums(flows: seq<CashFlow>, ytm: real)
    requires -1.0 < ytm && PriceSum(flows, ytm) != 0.0
    ensures Duration(Bond(flows, ytm)).Ok?
    ensures Duration(Bond(flows, ytm)).value == TimeWeightedSum(flows, ytm) / PriceSum(flows, ytm)
    ensures Convexity(Bond(flows, ytm)).Ok?
    ensures Convexity(Bond(flows, ytm)).value ==
      ConvexityRatio(ConvexitySum(flows, ytm), PriceSum(flows, ytm), 1.0 + ytm)
  {
  }

  /** The Macaulay duration of a bond built over `n >= 1` periods lies
      between one period and maturity. */
  lemma DurationWithinMaturity(faceValue: real, couponRate: real, periods: nat, ytm: real)
    requires 0.0 < faceValue && 0.0 <= couponRate && -1.0 < ytm && 1 <= periods
    ensures CouponBond(faceValue, couponRate, periods, ytm).Ok?
    ensures var duration := Duration(CouponBond(faceValue, couponRate, periods, ytm).value);
      duration.Ok? && 1.0 <= duration.value <= periods as real
  {
    BuiltBond(faceValue, couponRate, periods, ytm);
    var flows := CouponSchedule(faceValue * couponRate, faceValue, periods);
    MulLeftMono(faceValue, 0.0, couponRate);
    CouponScheduleSums(faceValue * couponRate, faceValue, periods, ytm);
    RatiosOfSums(flows, ytm);
    RatioBounds(TimeWeightedSum(flows, ytm), PriceSum(flows, ytm), ConvexitySum(flows, ytm), periods as real);
  }

  /** `p <= w <= m * p` with `p > 0` puts `w / p` in `[1, m]`. */
  lemma RatioBounds(w: real, p: real, c: real, m: real)
    requires 0.0 < p && LowerBounded(p, w, c) && WeightedWithin(w, p, m)
    ensures 1.0 <= w / p <= m
  {
    var q := w / p;
    assert q * p == w;
    if q < 1.0 {
      MulStrict(p, q, 1.0);
    }
    if m < q {
      MulStrict(p, m, q);
    }
  }

  /** Multiplying by a positive factor keeps a strict order. */
  lemma MulStrict(c: real, a: real, b: real)
    requires 0.0 < c && a < b
    ensures c * a < c * b
  {
    assert c * b - c * a == c * (b - a);
  }

  /** A bond built over `n >= 1` periods has a positive convexity. */
  lemma ConvexityPositive(faceValue: real, couponRate: real, periods: nat, ytm: real)
    requires 0.0 < faceValue && 0.0 <= couponRate && -1.0 < ytm && 1 <= periods
    ensures CouponBond(faceValue, couponRate, periods, ytm).Ok?
    ensures var convexity := Convexity(CouponBond(faceValue, couponRate, periods, ytm).value);
      convexity.Ok? && 0.0 < convexity.value
  {
    BuiltBond(faceValue, couponRate, periods, ytm);
    var flows := CouponSchedule(faceValue * couponRate, faceValue, periods);
    MulLeftMono(faceValue, 0.0, couponRate);
    CouponScheduleSums(faceValue * couponRate, faceValue, periods, ytm);
    RatiosOfSums(flows, ytm);
    PositiveRatio(ConvexitySum(flows, ytm), PriceSum(flows, ytm), 1.0 + ytm);
  }

  /** A positive sum over a positive price and yield factor is positive. */
  lemma PositiveRatio(c: real, p: real, y: real)
    requires 0.0 < c && 0.0 < p && 0.0 < y
    ensures 0.0 < ConvexityRatio(c, p, y)
  {
    var den := p * y * y;
    MulPositive(p, y);
    MulPositive(p * y, y);
    var q := ConvexityRatio(c, p, y);
    assert q * den == c;
    if q <= 0.0 {
      MulLeftMono(den, q, 0.0);
    }
  }

  /** A product of positives is positive. */
  lemma MulPositive(a: real, b: real)
    requires 0.0 < a && 0.0 < b
    ensures 0.0 < a * b
  {
  }

  /** Coupons of zero are worth nothing, however weighted. */
  lemma {:induction false} ZeroCoupons(k: nat, ytm: real)
    requires -1.0 < ytm
    ensures PriceSum(Coupons(0.0, k), ytm) == 0.0 && TimeWeightedSum(Coupons(0.0, k), ytm) == 0.0
  {
    if k > 0 {
      ZeroCoupons(k - 1, ytm);
      PriceOfSnoc(Coupons(0.0, k - 1), CashFlow(k, 0.0), ytm);
      WeightedOfSnoc(Coupons(0.0, k - 1), CashFlow(k, 0.0), ytm);
    }
  }

  /** A zero-coupon schedule is worth its discounted face value, and its
      time-weighted sum is that value times the maturity. */
  lemma ZeroCouponSums(coupon: real, faceValue: real, periods: nat, ytm: real)
    requires coupon == 0.0 && 0.0 < faceValue && -1.0 < ytm && 1 <= periods
    ensures var flows := CouponSchedule(coupon, faceValue, periods);
      0.0 < PriceSum(flows, ytm) &&
      IsProduct(TimeWeightedSum(flows, ytm), PriceSum(flows, ytm), periods as real)
  {
    ZeroCoupons(periods - 1, ytm);
    SingleLastPayment(Coupons(coupon, periods - 1), CashFlow(periods, coupon + faceValue), ytm);
  }

  /** After payments worth nothing, a single positive payment makes the
      price its present value and the time-weighted sum that value times its
      period. */
  lemma SingleLastPayment(prefix: seq<CashFlow>, last: CashFlow, ytm: real)
    requires -1.0 < ytm && 0.0 < last.amount && 1 <= last.period
    requires PriceSum(prefix, ytm) == 0.0 && TimeWeightedSum(prefix, ytm) == 0.0
    ensures 0.0 < PriceSum(prefix + [last], ytm)
    ensures IsProduct(TimeWeightedSum(prefix + [last], ytm), PriceSum(prefix + [last], ytm), last.period as real)
  {
    PositiveTerms(last, ytm);
    PriceOfSnoc(prefix, last, ytm);
    WeightedOfSnoc(prefix, last, ytm);
    ZeroCouponAlgebra(PriceSum(prefix, ytm), TimeWeightedSum(prefix, ytm), PresentValue(last, ytm),
      last.period as real, PriceSum(prefix + [last], ytm), TimeWeightedSum(prefix + [last], ytm));
  }

  /** Zero sums before a payment leave that payment's terms as the sums. */
  lemma ZeroCouponAlgebra(price: real, weighted: real, pv: real, m: real, price': real, weighted': real)
    requires price == 0.0 && weighted == 0.0 && 0.0 < pv
    requires IsSum(price', price, pv) && IsSum(weighted', weighted, pv * m)
    ensures 0.0 < price' && IsProduct(weighted', price', m)
  {
  }

  /** A zero-coupon bond's Macaulay duration is its maturity. */
  lemma ZeroCouponDuration(faceValue: real, periods: nat, ytm: real)
    requires 0.0 < faceValue && -1.0 < ytm && 1 <= periods
    ensures CouponBond(faceValue, 0.0, periods, ytm).Ok?
    ensures Duration(CouponBond(faceValue, 0.0, periods, ytm).value).Ok?
    ensures Duration(CouponBond(faceValue, 0.0, periods, ytm).value).value == periods as real
  {
    BuiltBond(faceValue, 0.0, periods, ytm);
    var flows := CouponSchedule(faceValue * 0.0, faceValue, periods);
    ZeroCouponSums(faceValue * 0.0, faceValue, periods, ytm);
    RatiosOfSums(flows, ytm);
    RatioOfMultiple(TimeWeightedSum(flows, ytm), PriceSum(flows, ytm), periods as real);
  }

  /** `(p * m) / p == m` for `p > 0`. */
  lemma RatioOfMultiple(w: real, p: real, m: real)
    requires 0.0 < p && IsProduct(w, p, m)
    ensures w / p == m
  {
  }

  /** A schedule of no periods has no price, so neither duration nor
      convexity can be taken. */
  lemma EmptyScheduleHasNoDuration(faceValue: real, couponRate: real, ytm: real)
    requires 0.0 < faceValue && 0.0 <= couponRate && -1.0 < ytm
    ensures CouponBond(faceValue, couponRate, 0, ytm).Ok?
    ensures CouponBond(faceValue, couponRate, 0, ytm).value.cashFlows == []
    ensures Price(CouponBond(faceValue, couponRate, 0, ytm).value) == Ok(0.0)
    ensures Duration(CouponBond(faceValue, couponRate, 0, ytm).value) == Err(DivisionByZero)
    ensures Convexity(CouponBond(faceValue, couponRate, 0, ytm).value) == Err(DivisionByZero)
  {
  }

  // ---------------------------------------------------------------------
  // Properties: the convexity adjustment
  // ---------------------------------------------------------------------

  /** The adjustment is even in the yield change and grows with its square. */
  lemma ConvexityAdjustmentScaling(convexity: real, yieldChange: real, k: real)
    requires 0.0 <= convexity
    ensures ConvexityAdjustment(convexity, -yieldChange) == ConvexityAdjustment(convexity, yieldChange)
    ensures ConvexityAdjustment(convexity, k * yieldChange).value ==
      (k * k) * ConvexityAdjustment(convexity, yieldChange).value
  {
    assert convexity * (k * yieldChange) * (k * yieldChange) == (k * k) * (convexity * yieldChange * yieldChange);
  }

  /** A convexity of 20 and a one-point yield move adjust the price by 0.002:
      there is no factor of 100. */
  lemma ConvexityAdjustmentExample()
    ensures ConvexityAdjustment(20.0, 0.01) == Ok(0.002)
  {
  }
}
