/** The special functions of the Bayesian engine (bayes_predict/src/main.rs).

    Floating-point primitives are not modelled: the natural log-gamma series,
    `exp`, `powf` and `round` are supplied as a bundle of opaque real
    functions (`MathLib`).  What is modelled is how the source combines them
    and the preconditions its callers must meet: `log_gamma` asserts a positive
    argument, and `nchoosek` computes the unsigned difference `n - k`.
 */
module SpecialFunctions {

  /** Opaque real-valued primitives.  `logGamma` stands for the Lanczos-type
      series of the source, the others for the `f64` methods of the same name. */
  datatype MathLib = MathLib(
    logGamma: real -> real,
    exp: real -> real,
    powf: (real, real) -> real,
    round: real -> int)
  {
    /** The one fact about the primitives the model relies on: the exponential
        is positive, so a beta function value can be divided by. */
    ghost predicate Valid() {
      forall t :: exp(t) > 0.0
    }
  }

  const U64Max: nat := 0xFFFF_FFFF_FFFF_FFFF

  /** `x as u64` on an already rounded float: saturates at both ends. */
  function AsU64(x: int): (r: nat)
    ensures r <= U64Max
    ensures 0 <= x <= U64Max ==> r == x
    ensures x < 0 ==> r == 0
    ensures U64Max < x ==> r == U64Max
  {
    if x < 0 then 0 else if x > U64Max then U64Max else x
  }

  /** `log_gamma`: the series itself is opaque; its `assert!(x > 0.0)` is kept. */
  function LogGamma(m: MathLib, x: real): real
    requires x > 0.0
  {
    m.logGamma(x)
  }

  /** `beta(x1, x2) = exp(lnΓ(x1) + lnΓ(x2) - lnΓ(x1 + x2))`. */
  function Beta(m: MathLib, x1: real, x2: real): (r: real)
    requires m.Valid()
    requires x1 > 0.0 && x2 > 0.0
    ensures r > 0.0
  {
    m.exp(LogGamma(m, x1) + LogGamma(m, x2) - LogGamma(m, x1 + x2))
  }

  /** `nchoosek(n, k)` on `u64`: the unsigned `n - k` needs `k <= n`. */
  function NChooseK(m: MathLib, n: nat, k: nat): (r: nat)
    requires k <= n
    ensures r <= U64Max
  {
    AsU64(m.round(m.exp(
      LogGamma(m, (n + 1) as real) - LogGamma(m, (k + 1) as real) - LogGamma(m, (n - k + 1) as real))))
  }

  /** Beta density `x^(a-1) (1-x)^(b-1) / B(a, b)`; nothing guards the endpoints
      of the support, only the shapes are needed positive (by `log_gamma`). */
  function BetaDens(m: MathLib, x: real, a: real, b: real): real
    requires m.Valid()
    requires a > 0.0 && b > 0.0
  {
    m.powf(x, a - 1.0) * m.powf(1.0 - x, b - 1.0) / Beta(m, a, b)
  }

  /** Beta-binomial mass `C(n, x) B(x + a, n - x + b) / B(a, b)`: a probability
      weight, so never negative, whatever the opaque primitives return. */
  function BetaBinDens(m: MathLib, x: nat, n: nat, a: real, b: real): (r: real)
    requires m.Valid()
    requires x <= n
    requires a > 0.0 && b > 0.0
    ensures r >= 0.0
  {
    var c := NChooseK(m, n, x) as real;
    var num := Beta(m, x as real + a, n as real - x as real + b);
    var den := Beta(m, a, b);
    assert c * num >= 0.0;
    c * num / den
  }
}
