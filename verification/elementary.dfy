/** The floating-point primitives the formulas call, over the reals.
    `exp`, `ln`, `sqrt` and `powf` with a real exponent are left
    uninterpreted: every formula takes them as an environment, so what is
    proved here holds for any implementation of them. The only fact assumed
    of them is that the square root is positive where the model applies it
    (to positive arguments only). The
    integer power `powi` is exact over the reals and is defined here. */
module Elementary {

  /** A positive real. */
  type Positive = x: real | 0.0 < x witness 1.0

  /** The primitives. The model applies `sqrt` only to positive arguments,
      where the true square root is positive, so its results are typed so. */
  datatype Env = Env(
    exp: real -> real,
    ln: real -> real,
    sqrt: real -> Positive,
    powf: (real, real) -> real)

  /** `f64::powi`: `b` raised to the natural power `n`. */
  function Powi(b: real, n: nat): (r: real)
    ensures 0.0 < b ==> 0.0 < r
    ensures 0.0 <= b ==> 0.0 <= r
  {
    if n == 0 then 1.0 else b * Powi(b, n - 1)
  }

  /** One more period multiplies by the base once more. */
  lemma PowiStep(b: real, n: nat)
    ensures Powi(b, n + 1) == b * Powi(b, n)
  {
  }

  /** The power of one is one, whatever the exponent. */
  lemma {:induction false} PowiOfOne(n: nat)
    ensures Powi(1.0, n) == 1.0
  {
    if n > 0 {
      PowiOfOne(n - 1);
    }
  }

  /** Bernoulli's inequality: `(1 + x)^n >= 1 + n*x` for `x >= -1`. */
  lemma {:induction false} Bernoulli(x: real, n: nat)
    requires -1.0 <= x
    ensures Powi(1.0 + x, n) >= 1.0 + (n as real) * x
  {
    if n > 0 {
      Bernoulli(x, n - 1);
      BernoulliStep(x, (n - 1) as real, Powi(1.0 + x, n - 1));
      PowiStep(1.0 + x, n - 1);
    }
  }

  /** The inductive step of Bernoulli's inequality, as plain algebra. */
  lemma BernoulliStep(x: real, m: real, p: real)
    requires -1.0 <= x && 0.0 <= m && 1.0 + m * x <= p
    ensures 1.0 + (m + 1.0) * x <= (1.0 + x) * p
  {
    MulLeftMono(1.0 + x, 1.0 + m * x, p);
    assert (1.0 + x) * (1.0 + m * x) == 1.0 + (m + 1.0) * x + m * (x * x);
    assert 0.0 <= x * x;
    MulLeftMono(m, 0.0, x * x);
  }

  /** Multiplying by a non-negative factor keeps an inequality. */
  lemma MulLeftMono(c: real, a: real, b: real)
    requires 0.0 <= c && a <= b
    ensures c * a <= c * b
  {
    assert c * b - c * a == c * (b - a);
  }
}
