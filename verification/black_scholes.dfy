/** Black-Scholes-Merton pricing of European options without dividends:
    the input gate, the distances d1/d2 with their two degenerate regimes,
    the normal CDF approximation, and the call, put and dispatching prices. */
module BlackScholes {
  import opened Types
  import opened Elementary

  /** Below this time to maturity the option is treated as expired. */
  const EpsTime: real := 0.000000000001
  /** Below this volatility the terminal price is treated as deterministic. */
  const EpsVol: real := 0.000000000001
  /** `std::f64::consts::PI`. */
  const Pi: real := 3.141592653589793

  // Coefficients of the rational approximation of the normal CDF.
  const B1: real := 0.319381530
  const B2: real := -0.356563782
  const B3: real := 1.781477937
  const B4: real := -1.821255978
  const B5: real := 1.330274429
  const P: real := 0.2316419

  /** A standardized distance: a real number or a signed infinity. */
  datatype Ext = Fin(x: real) | PosInf | NegInf {
    function Neg(): Ext {
      match this
      case Fin(x) => Fin(-x)
      case PosInf => NegInf
      case NegInf => PosInf
    }
  }

  function Abs(x: real): real {
    if x < 0.0 then -x else x
  }

  /** `f64::max` on the non-NaN values that reach it. */
  function Max(a: real, b: real): real {
    if a < b then b else a
  }

  // ---------------------------------------------------------------------------
  // Normal distribution

  /** Density of the standard normal distribution. It has the sign of
      `exp(-x^2/2)`, since the square root is positive. */
  function NormalPdf(env: Env, x: real): (density: real)
    ensures 0.0 < density <==> 0.0 < env.exp(-0.5 * x * x)
    ensures density == 0.0 <==> env.exp(-0.5 * x * x) == 0.0
  {
    env.exp(-0.5 * x * x) / env.sqrt(2.0 * Pi)
  }

  /** The density is even, whatever `exp` and `sqrt` compute. */
  lemma NormalPdfEven(env: Env, x: real)
    ensures NormalPdf(env, -x) == NormalPdf(env, x)
  {
    assert -0.5 * (-x) * (-x) == -0.5 * x * x;
  }

  /** The degree-5 polynomial of the approximation, in Horner form. */
  function Poly(t: real): real {
    ((((B5 * t + B4) * t + B3) * t + B2) * t + B1) * t
  }

  /** The upper-tail approximation evaluated at `a = |x|`. */
  function TailApprox(env: Env, a: real): real
    requires 0.0 <= a
  {
    var t := 1.0 / (1.0 + P * a);
    1.0 - NormalPdf(env, a) * Poly(t)
  }

  /** Approximate standard normal CDF. A negative argument is answered by
      reflecting the value computed at its absolute value. At the infinities
      the `f64` evaluation gives `t = 0`, so the polynomial vanishes and the
      approximation is exactly 1 (reflected to 0 below zero). */
  function NormalCdf(env: Env, d: Ext): (n: real)
    ensures d == PosInf ==> n == 1.0
    ensures d == NegInf ==> n == 0.0
  {
    match d
    case Fin(x) =>
      var approx := TailApprox(env, Abs(x));
      if x >= 0.0 then approx else 1.0 - approx
    case PosInf => 1.0
    case NegInf => 0.0
  }

  /** The reflection is exact away from zero: N(x) + N(-x) == 1. */
  lemma NormalCdfReflection(env: Env, d: Ext)
    requires d != Fin(0.0)
    ensures NormalCdf(env, d) + NormalCdf(env, d.Neg()) == 1.0
  {
    match d
    case Fin(x) =>
      assert Abs(-x) == Abs(x);
    case PosInf =>
    case NegInf =>
  }

  // ---------------------------------------------------------------------------
  // Input validation

  predicate AllFinite(s0: F64, k: F64, t: F64, r: F64, sigma: F64) {
    s0.Finite? && k.Finite? && t.Finite? && r.Finite? && sigma.Finite?
  }

  /** The gate every pricing entry point runs first. */
  function ValidateInputs(s0: F64, k: F64, t: F64, r: F64, sigma: F64): (res: Result<()>)
    ensures res.Ok? <==>
      AllFinite(s0, k, t, r, sigma) && 0.0 < s0.v && 0.0 < k.v && 0.0 <= t.v && 0.0 <= sigma.v
    ensures res == Err(InvalidMonetaryValue) <==>
      !AllFinite(s0, k, t, r, sigma) || s0.v <= 0.0 || k.v <= 0.0
    ensures res == Err(InvalidPeriods) <==>
      AllFinite(s0, k, t, r, sigma) && 0.0 < s0.v && 0.0 < k.v && t.v < 0.0
    ensures res == Err(InvalidInterestRate) <==>
      AllFinite(s0, k, t, r, sigma) && 0.0 < s0.v && 0.0 < k.v && 0.0 <= t.v && sigma.v < 0.0
  {
    if !AllFinite(s0, k, t, r, sigma) then Err(InvalidMonetaryValue)
    else if s0.v <= 0.0 || k.v <= 0.0 then Err(InvalidMonetaryValue)
    else if t.v < 0.0 then Err(InvalidPeriods)
    else if sigma.v < 0.0 then Err(InvalidInterestRate)
    else Ok(())
  }

  // ---------------------------------------------------------------------------
  // d1 and d2

  /** `d` is the signed infinity (or zero) that the sign of `x` selects. */
  predicate SignedBy(d: Ext, x: real) {
    && (d == PosInf <==> 0.0 < x)
    && (d == NegInf <==> x < 0.0)
    && (d == Fin(0.0) <==> x == 0.0)
  }

  /** The degenerate distance for a quantity whose sign decides exercise. */
  function SignToExt(x: real): (d: Ext)
    ensures SignedBy(d, x)
  {
    if x > 0.0 then PosInf else if x < 0.0 then NegInf else Fin(0.0)
  }

  /** `f64::signum` on a non-NaN value. A difference of two equal finite
      numbers is +0.0, whose signum is 1.0. */
  function Signum(x: real): real {
    if x < 0.0 then -1.0 else 1.0
  }

  /** The expiry distance as the source computes it, through `signum`:
      the zero branch can never be taken, so at the money it is +infinity. */
  function ExpiryDistanceAsWritten(s0: real, k: real): (d: Ext)
    ensures d != Fin(0.0)
    ensures d == PosInf <==> k <= s0
    ensures d == NegInf <==> s0 < k
  {
    var sign := Signum(s0 - k);
    if sign > 0.0 then PosInf else if sign < 0.0 then NegInf else Fin(0.0)
  }

  /** At the money, the written expiry branch answers +infinity where the
      three-way choice intends 0. */
  lemma ExpiryAtTheMoneyAsWritten()
    ensures ExpiryDistanceAsWritten(100.0, 100.0) == PosInf
    ensures SignToExt(100.0 - 100.0) == Fin(0.0)
  {
  }

  /** The distances d1 and d2 in their three mutually exclusive regimes:
      expiry, zero volatility, and the regular closed form. The expiry
      regime uses the intended sign of `s0 - k` (see ExpiryDistanceAsWritten). */
  function Distances(env: Env, s0: real, k: real, t: real, r: real, sigma: real): (d: (Ext, Ext))
    requires 0.0 < k
    ensures t < EpsTime ==> d.0 == d.1 && SignedBy(d.0, s0 - k)
    ensures EpsTime <= t && sigma < EpsVol ==> d.0 == d.1 && SignedBy(d.0, env.ln(s0 / k) + r * t)
    ensures EpsTime <= t && EpsVol <= sigma ==>
      d.0.Fin? && d.1.Fin? && d.1.x == d.0.x - sigma * env.sqrt(t)
  {
    if t < EpsTime then
      var v := SignToExt(s0 - k);
      (v, v)
    else if sigma < EpsVol then
      var num := env.ln(s0 / k) + r * t;
      var v := SignToExt(num);
      (v, v)
    else
      var lnSk := env.ln(s0 / k);
      var sqrtT := env.sqrt(t);
      var sigmaSqrtT := sigma * sqrtT;
      var d1 := (lnSk + (r + 0.5 * sigma * sigma) * t) / sigmaSqrtT;
      (Fin(d1), Fin(d1 - sigmaSqrtT))
  }

  /** d1 and d2 after the input gate, whose error is passed on unchanged. */
  function D1D2(env: Env, s0: F64, k: F64, t: F64, r: F64, sigma: F64): (res: Result<(Ext, Ext)>)
    ensures res.Ok? <==> ValidateInputs(s0, k, t, r, sigma).Ok?
    ensures res.Err? ==> res.error == ValidateInputs(s0, k, t, r, sigma).error
  {
    var _ :- ValidateInputs(s0, k, t, r, sigma);
    Ok(Distances(env, s0.v, k.v, t.v, r.v, sigma.v))
  }

  /** Exactly one regime applies to valid inputs, and each gives what it promises. */
  lemma D1D2Regimes(env: Env, s0: real, k: real, t: real, r: real, sigma: real)
    requires 0.0 < s0 && 0.0 < k && 0.0 <= t && 0.0 <= sigma
    ensures
      var res := D1D2(env, Finite(s0), Finite(k), Finite(t), Finite(r), Finite(sigma));
      && res.Ok?
      && (t < EpsTime ==>
            res.value.0 == res.value.1 && SignedBy(res.value.0, s0 - k))
      && (EpsTime <= t && sigma < EpsVol ==>
            res.value.0 == res.value.1 && SignedBy(res.value.0, env.ln(s0 / k) + r * t))
      && (EpsTime <= t && EpsVol <= sigma ==>
            && res.value.0.Fin? && res.value.1.Fin?
            && res.value.0.x * (sigma * env.sqrt(t)) == env.ln(s0 / k) + (r + 0.5 * sigma * sigma) * t
            && res.value.1.x == res.value.0.x - sigma * env.sqrt(t))
  {
    if EpsTime <= t && EpsVol <= sigma {
      var sst := sigma * env.sqrt(t);
      assert 0.0 < env.sqrt(t);
      assert 0.0 < sst;
      var num := env.ln(s0 / k) + (r + 0.5 * sigma * sigma) * t;
      assert (num / sst) * sst == num;
    }
  }

  // ---------------------------------------------------------------------------
  // Prices

  /** The closed-form call value for given distances: S0 N(d1) - K e^(-rT) N(d2). */
  function CallFormula(env: Env, s0: real, k: real, t: real, r: real, d: (Ext, Ext)): real {
    var df := env.exp(-r * t);
    s0 * NormalCdf(env, d.0) - k * df * NormalCdf(env, d.1)
  }

  /** The closed-form put value for given distances: K e^(-rT) N(-d2) - S0 N(-d1). */
  function PutFormula(env: Env, s0: real, k: real, t: real, r: real, d: (Ext, Ext)): real {
    var df := env.exp(-r * t);
    k * df * NormalCdf(env, d.1.Neg()) - s0 * NormalCdf(env, d.0.Neg())
  }

  /** With both distances infinite the closed forms are exact: deep in the
      money the call is the discounted forward gain and the put is worthless,
      and the other way round deep out of the money. */
  lemma FormulasAtInfinity(env: Env, s0: real, k: real, t: real, r: real)
    ensures CallFormula(env, s0, k, t, r, (PosInf, PosInf)) == s0 - k * env.exp(-r * t)
    ensures PutFormula(env, s0, k, t, r, (PosInf, PosInf)) == 0.0
    ensures CallFormula(env, s0, k, t, r, (NegInf, NegInf)) == 0.0
    ensures PutFormula(env, s0, k, t, r, (NegInf, NegInf)) == k * env.exp(-r * t) - s0
  {
  }

  /** Price of a European call. */
  function CallPrice(env: Env, s0: F64, k: F64, t: F64, r: F64, sigma: F64): (res: Result<real>)
    ensures res.Ok? <==> ValidateInputs(s0, k, t, r, sigma).Ok?
    ensures res.Err? ==> res.error == ValidateInputs(s0, k, t, r, sigma).error
  {
    var _ :- ValidateInputs(s0, k, t, r, sigma);
    if t.v < EpsTime then Ok(Max(s0.v - k.v, 0.0))
    else
      match D1D2(env, s0, k, t, r, sigma)
      case Err(e) => Err(e)
      case Ok(d) => Ok(CallFormula(env, s0.v, k.v, t.v, r.v, d))
  }

  /** Price of a European put. */
  function PutPrice(env: Env, s0: F64, k: F64, t: F64, r: F64, sigma: F64): (res: Result<real>)
    ensures res.Ok? <==> ValidateInputs(s0, k, t, r, sigma).Ok?
    ensures res.Err? ==> res.error == ValidateInputs(s0, k, t, r, sigma).error
  {
    var _ :- ValidateInputs(s0, k, t, r, sigma);
    if t.v < EpsTime then Ok(Max(k.v - s0.v, 0.0))
    else
      match D1D2(env, s0, k, t, r, sigma)
      case Err(e) => Err(e)
      case Ok(d) => Ok(PutFormula(env, s0.v, k.v, t.v, r.v, d))
  }

  /** Price by option kind. */
  function OptionPrice(env: Env, s0: F64, k: F64, t: F64, r: F64, sigma: F64, kind: OptionType): (res: Result<real>)
    ensures res.Ok? <==> ValidateInputs(s0, k, t, r, sigma).Ok?
    ensures res.Err? ==> res.error == ValidateInputs(s0, k, t, r, sigma).error
  {
    match kind
    case Call => CallPrice(env, s0, k, t, r, sigma)
    case Put => PutPrice(env, s0, k, t, r, sigma)
  }

  // ---------------------------------------------------------------------------
  // Properties of the prices

  /** Dispatch adds nothing: each kind gives exactly its direct price,
      errors included. */
  lemma OptionPriceDispatch(env: Env, s0: F64, k: F64, t: F64, r: F64, sigma: F64)
    ensures OptionPrice(env, s0, k, t, r, sigma, Call) == CallPrice(env, s0, k, t, r, sigma)
    ensures OptionPrice(env, s0, k, t, r, sigma, Put) == PutPrice(env, s0, k, t, r, sigma)
  {
  }

  /** At expiry both prices are intrinsic values: non-negative, and their
      difference is the undiscounted forward `s0 - k`. */
  lemma ExpiryIntrinsicValue(env: Env, s0: real, k: real, t: real, r: real, sigma: real)
    requires 0.0 < s0 && 0.0 < k && 0.0 <= t < EpsTime && 0.0 <= sigma
    ensures
      var c := CallPrice(env, Finite(s0), Finite(k), Finite(t), Finite(r), Finite(sigma));
      var p := PutPrice(env, Finite(s0), Finite(k), Finite(t), Finite(r), Finite(sigma));
      && c.Ok? && p.Ok?
      && 0.0 <= c.value && 0.0 <= p.value
      && c.value - p.value == s0 - k
      && (k <= s0 ==> c.value == s0 - k && p.value == 0.0)
      && (s0 <= k ==> p.value == k - s0 && c.value == 0.0)
  {
  }

  /** Both distances are non-zero (or the inputs are rejected). */
  predicate NonZeroDistances(d: Result<(Ext, Ext)>) {
    d.Ok? ==> d.value.0 != Fin(0.0) && d.value.1 != Fin(0.0)
  }

  /** `call == a n1 - c n2`: the shape of the call closed form. */
  predicate CallShape(call: real, a: real, c: real, n1: real, n2: real) {
    call == a * n1 - c * n2
  }

  /** `put == c m2 - a m1`: the shape of the put closed form. */
  predicate PutShape(put: real, a: real, c: real, m1: real, m2: real) {
    put == c * m2 - a * m1
  }

  /** Two weights that sum to one. */
  predicate Complementary(n: real, m: real) {
    n + m == 1.0
  }

  /** The algebra behind parity: reflected weights sum to one. */
  lemma ParityAlgebra(call: real, put: real, a: real, c: real, n1: real, n2: real, m1: real, m2: real)
    requires CallShape(call, a, c, n1, n2) && PutShape(put, a, c, m1, m2)
    requires Complementary(n1, m1) && Complementary(n2, m2)
    ensures call - put == a - c
  {
    assert call - put == a * (n1 + m1) - c * (n2 + m2);
  }

  /** The call closed form with the discounted strike named. */
  lemma CallFormulaShape(env: Env, s0: real, k: real, t: real, r: real, d: (Ext, Ext))
    ensures CallShape(CallFormula(env, s0, k, t, r, d), s0, k * env.exp(-r * t), NormalCdf(env, d.0), NormalCdf(env, d.1))
  {
  }

  /** The put closed form with the discounted strike named. */
  lemma PutFormulaShape(env: Env, s0: real, k: real, t: real, r: real, d: (Ext, Ext))
    ensures PutShape(PutFormula(env, s0, k, t, r, d), s0, k * env.exp(-r * t),
      NormalCdf(env, d.0.Neg()), NormalCdf(env, d.1.Neg()))
  {
  }

  /** The reflection, as a pair of complementary weights. */
  lemma ReflectedWeights(env: Env, d: Ext)
    requires d != Fin(0.0)
    ensures Complementary(NormalCdf(env, d), NormalCdf(env, d.Neg()))
  {
    NormalCdfReflection(env, d);
  }

  /** The closed forms satisfy parity for any distances that are not exactly zero. */
  lemma FormulaParity(env: Env, s0: real, k: real, t: real, r: real, d: (Ext, Ext))
    requires d.0 != Fin(0.0) && d.1 != Fin(0.0)
    ensures CallFormula(env, s0, k, t, r, d) - PutFormula(env, s0, k, t, r, d) == s0 - k * env.exp(-r * t)
  {
    ReflectedWeights(env, d.0);
    ReflectedWeights(env, d.1);
    CallFormulaShape(env, s0, k, t, r, d);
    PutFormulaShape(env, s0, k, t, r, d);
    ParityAlgebra(CallFormula(env, s0, k, t, r, d), PutFormula(env, s0, k, t, r, d),
                  s0, k * env.exp(-r * t), NormalCdf(env, d.0), NormalCdf(env, d.1),
                  NormalCdf(env, d.0.Neg()), NormalCdf(env, d.1.Neg()));
  }

  /** Put-call parity holds exactly once the maturity is above the expiry
      threshold and neither distance is exactly zero. */
  lemma PutCallParity(env: Env, s0: real, k: real, t: real, r: real, sigma: real)
    requires 0.0 < s0 && 0.0 < k && EpsTime <= t && 0.0 <= sigma
    requires NonZeroDistances(D1D2(env, Finite(s0), Finite(k), Finite(t), Finite(r), Finite(sigma)))
    ensures
      var c := CallPrice(env, Finite(s0), Finite(k), Finite(t), Finite(r), Finite(sigma));
      var p := PutPrice(env, Finite(s0), Finite(k), Finite(t), Finite(r), Finite(sigma));
      c.Ok? && p.Ok? && c.value - p.value == s0 - k * env.exp(-r * t)
  {
    var d := D1D2(env, Finite(s0), Finite(k), Finite(t), Finite(r), Finite(sigma)).value;
    FormulaParity(env, s0, k, t, r, d);
  }

  /** With zero volatility the forward moneyness decides: in the money the
      call is the discounted forward gain and the put is worthless, and the
      other way round out of the money. */
  lemma ZeroVolatilityPrices(env: Env, s0: real, k: real, t: real, r: real, sigma: real)
    requires 0.0 < s0 && 0.0 < k && EpsTime <= t && 0.0 <= sigma < EpsVol
    ensures
      var c := CallPrice(env, Finite(s0), Finite(k), Finite(t), Finite(r), Finite(sigma));
      var p := PutPrice(env, Finite(s0), Finite(k), Finite(t), Finite(r), Finite(sigma));
      var num := env.ln(s0 / k) + r * t;
      && c.Ok? && p.Ok?
      && (0.0 < num ==> c.value == s0 - k * env.exp(-r * t) && p.value == 0.0)
      && (num < 0.0 ==> p.value == k * env.exp(-r * t) - s0 && c.value == 0.0)
  {
    var d := D1D2(env, Finite(s0), Finite(k), Finite(t), Finite(r), Finite(sigma)).value;
    var num := env.ln(s0 / k) + r * t;
    assert d == (SignToExt(num), SignToExt(num));
    FormulasAtInfinity(env, s0, k, t, r);
  }
}
