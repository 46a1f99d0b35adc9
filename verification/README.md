# quant_finance core, modelled in Dafny

This project models the formula core of the Rust library `quant_finance`:

- Black-Scholes-Merton pricing of European options. This covers the input gate, the distances d1 and d2 in their three regimes, the structure of the normal-CDF approximation, and the call, put and dispatching prices.
- Fixed-coupon bonds. This covers building the cash-flow schedule, the market price, Macaulay and modified duration, convexity and the convexity adjustment.
- Time value of money. This covers future and present value with an integer power, simple interest, and compound and continuous interest.
- The Capital Asset Pricing Model. This covers expected return, the market risk premium and Jensen's alpha.

Every `f64` is a Dafny `real`.

Transcendental functions are not given definitions. `exp`, `ln`, `sqrt` and `powf` with a real exponent are fields of an environment record, `Elementary.Env`, and each formula takes that record as a parameter. So every property proved here holds for any implementation of those functions. The only fact assumed of them is that `sqrt` returns a positive number; the model applies it to positive arguments only. `normal_pdf` is defined from `exp` and `sqrt`, exactly as the source writes it.

Integer powers (`powi`, and the bond discount `(1 + y)^-t` for whole periods `t`) are exact and defined recursively (`Elementary.Powi`).

Inputs that pass through an `is_finite` gate are values of `Types.F64 = Finite(v) | NonFinite`. The distances d1 and d2 can be infinite, so they are values of `BlackScholes.Ext = Fin(x) | PosInf | NegInf`. At the infinities the `f64` evaluation of the normal-CDF approximation gives exactly 1 and 0, and the model uses those values.

Errors are `Types.Result`, a failure-compatible datatype, so `:-` plays the part of Rust's `?`.

Some operations in the source are loops over a vector: building the bond schedule and accumulating the price, duration and convexity. These are Dafny methods with loop invariants. Each is proved equal to a specification function (`Bonds.CouponBond`, `Bonds.Price`, `Bonds.Duration`, `Bonds.Convexity`), and the properties are proved about those functions. A `Bond` is never changed after it is built, so it is a datatype. The rest of the core consists of guard clauses and closed-form expressions, and it is modelled as functions.

Where the code and its documentation disagree, the model follows the code:

- The doc comment of `convexity_adjustment` (src/time_value/bonds.rs:185) multiplies by 100. The code does not, and neither does its test. `Bonds.ConvexityAdjustmentExample` pins the code's value.
- The crate root does not declare the `options` or `portfolio` modules, and `time_value` does not declare `bonds`. The files are modelled as written, whether the crate compiles them or not.

## Model

| member | source | states |
|---|---|---|
| BlackScholes.NormalPdf | src/options/black_scholes.rs:21-23 | The density is positive exactly when `exp(-x^2/2)` is, and 0 exactly when it is, because the square root is positive |
| BlackScholes.NormalPdfEven | src/options/black_scholes.rs:21-23 | The density is even, `phi(-x) == phi(x)`, whatever `exp` and `sqrt` compute |
| BlackScholes.NormalCdf | src/options/black_scholes.rs:27-39 | At `+inf` the value is 1 and at `-inf` it is 0, as the `f64` evaluation gives with `t = 0`. Its partner `NormalCdfReflection` states how a negative argument reflects the approximation at `|x|` |
| BlackScholes.NormalCdfReflection | src/options/black_scholes.rs:27-39 | `N(x) + N(-x) == 1` exactly for every distance other than 0, finite or infinite, whatever `exp` and `sqrt` compute, because the negative branch reflects the same approximation |
| BlackScholes.ValidateInputs | src/options/black_scholes.rs:43-57 | Accepts exactly the inputs that are all finite, with positive spot and strike and non-negative time and volatility. A non-finite input, or a non-positive spot or strike, gives `InvalidMonetaryValue`. Then a negative time gives `InvalidPeriods`, then a negative volatility `InvalidInterestRate`. Each error holds if and only if its condition does |
| BlackScholes.SignToExt | src/options/black_scholes.rs:68-71 | The degenerate distance is `+inf`, `-inf` or `0` exactly as its argument is positive, negative or zero |
| BlackScholes.ExpiryDistanceAsWritten | src/options/black_scholes.rs:63-66 | The expiry branch as written, through `signum`, is never 0: it is `+inf` iff `k <= s0` and `-inf` iff `s0 < k` |
| BlackScholes.ExpiryAtTheMoneyAsWritten | src/options/black_scholes.rs:63-66 | At `s0 == k == 100` the written branch gives `+inf` while the three-way sign choice gives 0 |
| BlackScholes.Distances | src/options/black_scholes.rs:63-79 | At expiry `d1 == d2`, signed by `s0 - k` with the corrected three-way choice, so 0 at the money (see Findings). At zero volatility `d1 == d2`, signed by `ln(s0/k) + r t`. Otherwise both are finite and `d2 == d1 - sigma sqrt(t)` |
| BlackScholes.D1D2 | src/options/black_scholes.rs:60-80 | Succeeds iff the input gate does; on failure the gate's error is returned unchanged. This is the corrected member of the Findings row: its expiry branch gives 0 at the money, where the code as written gives `+inf` |
| BlackScholes.D1D2Regimes | src/options/black_scholes.rs:63-79 | For valid inputs exactly one regime applies. At expiry, `d1 == d2` is signed by `s0 - k`. At zero volatility, `d1 == d2` is signed by `ln(s0/k) + r t`. Otherwise `d1 * sigma sqrt(t) == ln(s0/k) + (r + sigma^2/2) t` and `d2 == d1 - sigma sqrt(t)` |
| BlackScholes.FormulasAtInfinity | src/options/black_scholes.rs:89-103 | Specifies `CallFormula` and `PutFormula` at the infinities. With both distances `+inf` the call is `s0 - k e^(-rt)` and the put is 0. With both `-inf` the put is `k e^(-rt) - s0` and the call is 0. Their partner is `FormulaParity` |
| BlackScholes.CallPrice | src/options/black_scholes.rs:83-92 | Succeeds iff the input gate does, and returns the gate's error unchanged |
| BlackScholes.PutPrice | src/options/black_scholes.rs:95-104 | Succeeds iff the input gate does, and returns the gate's error unchanged |
| BlackScholes.OptionPrice | src/options/black_scholes.rs:107-112 | Succeeds iff the input gate does, with the gate's error otherwise, for either kind. Its partner is `OptionPriceDispatch` |
| BlackScholes.OptionPriceDispatch | src/options/black_scholes.rs:107-112 | Pricing by kind equals the direct call or put price for every input, errors included |
| BlackScholes.ExpiryIntrinsicValue | src/options/black_scholes.rs:83-104 | At expiry, both prices are non-negative and `call - put == s0 - k`. For `k <= s0` the call is `s0 - k` and the put is 0, and for `s0 <= k` the other way round, so both are 0 at the money |
| BlackScholes.FormulaParity | src/options/black_scholes.rs:89-103 | For distances not exactly zero, the call formula minus the put formula is `s0 - k e^(-rt)` |
| BlackScholes.PutCallParity | src/options/black_scholes.rs:83-104 | Put-call parity `call - put == s0 - k e^(-rt)` holds for valid inputs past the expiry threshold whose distances are not exactly zero |
| BlackScholes.ZeroVolatilityPrices | src/options/black_scholes.rs:68-104 | With zero volatility and positive forward moneyness, the call is `s0 - k e^(-rt)` and the put is 0. With negative moneyness, the put is `k e^(-rt) - s0` and the call is 0 |
| Bonds.CouponSchedule | src/time_value/bonds.rs:55-69 | The schedule has exactly `periods` payments; its full shape is stated by `CouponScheduleShape` |
| Bonds.CouponsShape | src/time_value/bonds.rs:58-64 | The coupons pushed before the face value is added: payment `i` falls in period `i + 1` and pays the coupon |
| Bonds.CouponScheduleShape | src/time_value/bonds.rs:55-69 | Exactly `periods` payments. Payment `i` falls in period `i + 1`. Every payment is the coupon, except the last, which adds the face value |
| Bonds.CouponBond | src/time_value/bonds.rs:41-72 | A face value `<= 0` gives `InvalidMonetaryValue`, checked first. Then a negative coupon rate or a yield `<= -1` gives `InvalidInterestRate`. Otherwise the bond keeps the yield, and its schedule is the coupon schedule of `face * rate` |
| Bonds.NewCouponBond | src/time_value/bonds.rs:41-72 | The loop that pushes one coupon per period and then adds the face value to the last payment builds exactly `CouponBond` |
| Bonds.Discount | src/time_value/bonds.rs:98 | The discount factor `(1 + y)^-t` is positive for a yield above -100% |
| Bonds.Price | src/time_value/bonds.rs:90-103 | Fails, with `InvalidInterestRate`, exactly when the yield is `<= -1` |
| Bonds.PriceOfSnoc | src/time_value/bonds.rs:95-100 | Specifies `PriceSum`: appending a payment to any schedule adds its present value `amount (1 + y)^-t` to the price |
| Bonds.BondPrice | src/time_value/bonds.rs:90-103 | The accumulation loop computes exactly `Price`, the sum of the discounted payments |
| Bonds.Duration | src/time_value/bonds.rs:126-142 | Passes on the price error, and gives `DivisionByZero` exactly when the price is 0. Otherwise the duration times the price is the time-weighted sum |
| Bonds.WeightedOfSnoc | src/time_value/bonds.rs:133-139 | Specifies `TimeWeightedSum`: appending a payment adds its present value times its period |
| Bonds.MacaulayDuration | src/time_value/bonds.rs:126-142 | The weighted-time loop computes exactly `Duration` |
| Bonds.Convexity | src/time_value/bonds.rs:163-180 | Passes on the price error, and gives `DivisionByZero` exactly when the price is 0; otherwise it succeeds |
| Bonds.ConvexityOfSnoc | src/time_value/bonds.rs:170-177 | Specifies `ConvexitySum`: appending a payment adds its present value times `t^2 + t` |
| Bonds.BondConvexity | src/time_value/bonds.rs:163-180 | The `t^2 + t` weighted loop computes exactly `Convexity` |
| Bonds.ConvexityTimesPrice | src/time_value/bonds.rs:163-180 | A convexity, multiplied by the price and by `(1 + y)^2`, gives back the `t^2 + t` weighted sum |
| Bonds.ModifiedDuration | src/time_value/bonds.rs:222-225 | Succeeds iff the Macaulay duration does, with the same error. Otherwise it times `1 + y` is the Macaulay duration |
| Bonds.ConvexityAdjustment | src/time_value/bonds.rs:199-205 | Fails, with `InvalidInput`, exactly on a negative convexity. Otherwise it is non-negative, and 0 for no yield change |
| Bonds.ConvexityAdjustmentScaling | src/time_value/bonds.rs:199-205 | The adjustment is even in the yield change and scales with its square |
| Bonds.ConvexityAdjustmentExample | src/time_value/bonds.rs:199-205 | A convexity of 20 and a yield change of 0.01 give 0.002, with no factor of 100 |
| Bonds.CouponBondPrice | src/time_value/bonds.rs:41-103 | A bond built over `n >= 1` periods has a price, and it is `F c a(n) + F (1 + y)^-n`, where `a(n)` is the annuity factor |
| Bonds.AnnuityClosedForm | src/time_value/bonds.rs:90-103 | `y a(k) == 1 - (1 + y)^-k`, the closed form of the coupon annuity |
| Bonds.PriceAgainstPar | src/time_value/bonds.rs:41-103 | The price exceeds the face value by exactly `F (c - y) a(n)` |
| Bonds.ParPremiumDiscount | src/time_value/bonds.rs:41-103 | The price is at par iff the coupon rate equals the yield, at a premium iff the rate exceeds it, and at a discount iff it is below it |
| Bonds.NonNegativeFlowSums | src/time_value/bonds.rs:90-142 | For non-negative payments in periods `1..m`, the price and the convexity sum are non-negative, and `price <= weighted sum <= m * price` |
| Bonds.CouponBondSums | src/time_value/bonds.rs:41-180 | A built bond over at least one period has a positive price and convexity sum, and a weighted sum between the price and `n` times the price |
| Bonds.DurationWithinMaturity | src/time_value/bonds.rs:41-142 | The Macaulay duration of a built bond over `n >= 1` periods lies in `[1, n]` |
| Bonds.ConvexityPositive | src/time_value/bonds.rs:41-180 | The convexity of a built bond over `n >= 1` periods exists and is positive |
| Bonds.ZeroCouponDuration | src/time_value/bonds.rs:41-142 | A zero-coupon bond built over `n >= 1` periods has a Macaulay duration of exactly `n` |
| Bonds.EmptyScheduleHasNoDuration | src/time_value/bonds.rs:41-180 | Zero periods build an empty schedule, so the face value is never added. Its price is 0, and both duration and convexity give `DivisionByZero` |
| TimeValueBasic.FutureValue | src/time_value/basic.rs:29-44 | A negative present value gives `InvalidMonetaryValue`, checked first. Then a rate `<= -1` gives `InvalidInterestRate`. A result is non-negative |
| TimeValueBasic.PresentValue | src/time_value/basic.rs:68-88 | The same gate in the same order. The `DivisionByZero` branch is unreachable, and a result is non-negative |
| TimeValueBasic.PresentOfFutureValue | src/time_value/basic.rs:29-88 | Discounting a future value gives back the present value |
| TimeValueBasic.FutureOfPresentValue | src/time_value/basic.rs:29-88 | Compounding a present value gives back the future value |
| TimeValueBasic.NeutralCompounding | src/time_value/basic.rs:29-88 | A zero rate, or zero periods, leaves the amount unchanged in both directions |
| TimeValueBasic.FutureValueStep | src/time_value/basic.rs:42-43 | One more period multiplies the future value by `1 + r` |
| SimpleInterest.ValidateSimpleInterestInputs | src/time_value/simple.rs:127-142 | A negative principal gives `InvalidMonetaryValue`, then a negative rate `InvalidInterestRate`, then a negative time `InvalidPeriods`. Each holds iff its condition does, and otherwise the inputs are accepted |
| SimpleInterest.Interest | src/time_value/simple.rs:33-41 | Fails exactly as the gate does, with its error. A result is non-negative |
| SimpleInterest.Amount | src/time_value/simple.rs:60-68 | Fails exactly as the gate does, with its error. A result is at least the principal |
| SimpleInterest.Principal | src/time_value/simple.rs:79-100 | Its own gate checks the target, then the rate, then the time. `DivisionByZero` never happens, and a result lies between 0 and the target |
| SimpleInterest.Rate | src/time_value/simple.rs:111-124 | A principal `<= 0` or a negative target gives `InvalidMonetaryValue`. Then a time `<= 0` gives `InvalidPeriods`. Otherwise it succeeds |
| SimpleInterest.AmountIsPrincipalPlusInterest | src/time_value/simple.rs:33-68 | The amount is the principal plus the interest, errors included |
| SimpleInterest.ZeroRateAmount | src/time_value/simple.rs:60-68 | At a zero rate the amount is the principal |
| SimpleInterest.PrincipalOfAmount | src/time_value/simple.rs:60-100 | Solving for the principal of an amount gives back the principal |
| SimpleInterest.RateOfAmount | src/time_value/simple.rs:60-124 | Solving for the rate of an amount gives back the rate, for positive principal and time |
| SimpleInterest.AmountAtSolvedRate | src/time_value/simple.rs:60-124 | The solved rate, applied to the principal, reaches the target |
| CompoundInterest.ValidateCompoundParams | src/time_value/compound.rs:173-188 | A negative rate gives `InvalidInterestRate`, checked first. Then a zero frequency or a negative time gives `InvalidPeriods` |
| CompoundInterest.ValidateCompoundInputs | src/time_value/compound.rs:161-171 | A negative principal gives `InvalidMonetaryValue`, checked before the parameter gate; otherwise the parameter gate decides |
| CompoundInterest.Amount | src/time_value/compound.rs:35-47 | Fails exactly as the input gate does, with its error |
| CompoundInterest.Interest | src/time_value/compound.rs:59-67 | Fails exactly when the amount does |
| CompoundInterest.InterestPlusPrincipal | src/time_value/compound.rs:59-67 | The interest plus the principal is the amount, errors included |
| CompoundInterest.CompoundFactorAtLeastSimple | src/time_value/compound.rs:43-46 | The growth factor `(1 + r/n)^(n t)` over whole years is at least `1 + r t` for every frequency, where `powf` agrees with the integer power |
| CompoundInterest.Principal | src/time_value/compound.rs:79-100 | The target is checked before the parameters, whose error is passed on. `DivisionByZero` occurs exactly when the growth factor is 0. A result times the factor is the target |
| CompoundInterest.PrincipalOfAmount | src/time_value/compound.rs:35-100 | Whenever discounting the compounded amount succeeds, it gives back the principal, whatever `powf` computes. It succeeds when the factor is positive |
| CompoundInterest.AmountOfPrincipal | src/time_value/compound.rs:35-100 | With a positive factor, compounding the discounted target reaches the target |
| CompoundInterest.ContinuousAmount | src/time_value/compound.rs:119-135 | The principal, then the rate, then the time are validated, each error iff its condition. Otherwise it succeeds |
| CompoundInterest.ContinuousNeutral | src/time_value/compound.rs:119-135 | At a zero rate, or over no time, the continuous amount is the principal, wherever `e^0 == 1` |
| CompoundInterest.ContinuousScalesWithPrincipal | src/time_value/compound.rs:119-135 | The continuous amount is linear in the principal, whatever `exp` computes |
| CompoundInterest.ContinuousBeatsSimple | src/time_value/compound.rs:119-135 | The continuous amount is at least the simple-interest amount, wherever `1 + x <= e^x` at `x = r t` |
| CompoundInterest.EffectiveAnnualRate | src/time_value/compound.rs:145-158 | A negative rate gives `InvalidInterestRate`, then a zero frequency `InvalidPeriods`. A result is non-negative |
| CompoundInterest.AnnualCompoundingIsEffective | src/time_value/compound.rs:145-158 | Compounding once a year makes the effective rate equal to the nominal rate |
| CompoundInterest.EffectiveAtLeastNominal | src/time_value/compound.rs:145-158 | The effective annual rate is never below the nominal rate |
| CompoundInterest.CompoundBeatsSimple | src/time_value/compound.rs:35-47 | Annual compounding over whole years yields at least the simple-interest amount, where `powf` agrees with the integer power |
| CompoundInterest.OneYearAtEffectiveRate | src/time_value/compound.rs:35-158 | Over one year the amount is the principal times `1 +` the effective annual rate, where `powf` agrees with the integer power |
| Capm.ValidateCapmInputs | src/portfolio/capm.rs:90-103 | Accepts exactly the inputs that are all finite with a non-negative risk-free rate; a negative beta is accepted. Every failure is `InvalidInterestRate` |
| Capm.ExpectedReturn | src/portfolio/capm.rs:42-49 | Fails exactly when the gate does, with `InvalidInterestRate` |
| Capm.MarketRiskPremium | src/portfolio/capm.rs:59-67 | Succeeds iff both inputs are finite. The risk-free rate plus the premium is the market return |
| Capm.CapmAlpha | src/portfolio/capm.rs:79-87 | Succeeds iff both inputs are finite. The expected return plus alpha is the actual return, and alpha is positive iff the actual return exceeds the expected one |
| Capm.ZeroBetaEarnsRiskFree | src/portfolio/capm.rs:42-49 | A beta of 0 earns the risk-free rate |
| Capm.UnitBetaEarnsPremium | src/portfolio/capm.rs:42-49 | A beta of 1 earns the risk-free rate plus the premium |
| Capm.ExpectedReturnLinearInBeta | src/portfolio/capm.rs:42-49 | The spread between two expected returns is the beta spread times the premium |
| Capm.MarketOnSecurityMarketLine | src/portfolio/capm.rs:42-67 | A beta of 1, priced with the market's own premium, expects the market return |
| Capm.NoAlphaOnTheLine | src/portfolio/capm.rs:42-87 | An asset that earns exactly its expected return has alpha 0 |

## Left out

- IEEE-754 behaviour is not modelled. This covers rounding, overflow and underflow, signed zeros, and NaN slipping past `< 0.0` checks (only the `is_finite` gates are modelled, through `F64`). The one exception is `BlackScholes.Signum`, which models `f64::signum(+0.0) == 1.0`: the difference of two equal finite numbers is `+0.0`, and the Findings row rests on this. The source's tests compare with tolerances, which the model does not track.
- `exp`, `ln`, `sqrt` and `powf` with a real exponent are uninterpreted. So numeric values such as `normal_cdf(1) ≈ 0.8413`, a bond price of about 1044.52, or a convexity of about 24.48 are out of reach. The accuracy of the Abramowitz-Stegun rational approximation (formula 26.2.17, whose coefficients the code uses) is not modelled either.
- BlackScholes.NormalCdfReflection: excludes the distance 0. There the approximation gives `N(0) + N(-0) == 2 N(0)`, which is 1 only if the density and polynomial happen to give exactly 1/2.
- BlackScholes.PutCallParity: requires both distances to be non-zero, for the same reason.
- Bonds.Convexity: its own contract states only when it succeeds. The value is stated by `Bonds.ConvexityTimesPrice` and `Bonds.ConvexityPositive`.
- CompoundInterest.ContinuousAmount: its own contract states only the validation. Because `exp` is uninterpreted, its value is constrained only by `ContinuousNeutral`, `ContinuousScalesWithPrincipal` and `ContinuousBeatsSimple`, the first and last under stated facts about `exp`. The ordering `monthly < continuous` in the test at src/time_value/compound.rs:250-263 needs `(1 + r/n)^n < e^r`, which is out of reach with `powf` and `exp` uninterpreted; so is `annual < quarterly < monthly` (lines 260-261).
- CompoundInterest.PrincipalOfAmount: states the round trip only when discounting succeeds, or when the growth factor is positive, because `powf` is uninterpreted and could return 0 or a negative number.
- CompoundInterest.CompoundBeatsSimple and CompoundInterest.OneYearAtEffectiveRate: hold only where `powf` agrees with the integer power, which is assumed through their `requires`.
- The `periods as i32` cast (src/time_value/basic.rs:42 and 81, src/time_value/compound.rs:157) wraps for very large `u32` values. Periods are `nat` here, so the wrap-around is not modelled.
- A bond's cash-flow period is a `nat`. Bonds built by hand through the public fields with fractional periods would need a real-exponent power, and only schedules of whole periods (those `new_coupon_bond` builds) are modelled.
- The `Display` strings of `FinanceError` (src/common/types.rs:27-37) are presentation only. The type aliases of src/common/types.rs become plain `real`.
- The re-exports in src/lib.rs and the `mod.rs` files, and the doc-comment examples, are not modelled.

## Findings

| source | as written | input that shows it | evidently intended | confidence | as-written member | corrected member |
|---|---|---|---|---|---|---|
| src/options/black_scholes.rs:64-65 | At expiry the distance is chosen from `(s0 - k).signum()` with a three-way test, but `f64::signum(+0.0)` is `1.0`, so the zero branch is dead and an at-the-money option gets `d1 = d2 = +inf` | `s0 = k = 100`, `t = 0`: `d1_d2` returns `(+inf, +inf)` | `(0, 0)` at the money, as the three-way choice and the zero-volatility branch (line 70) give | high; not executed | BlackScholes.ExpiryAtTheMoneyAsWritten | BlackScholes.D1D2 |

The prices are not affected: `call_price` and `put_price` return the intrinsic value before they call `d1_d2` at expiry.
