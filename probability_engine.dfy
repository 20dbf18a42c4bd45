/** The two probability drivers of bayes_predict/src/main.rs.

    `post_prob` is the posterior probability that arm 1's response rate exceeds
    arm 2's by more than `delta`: an outer integral over p1 in [delta, 1] of the
    arm-1 posterior density times an inner integral of the arm-2 posterior
    density over [0, p1 - delta].

    `pred_prob` is the predictive probability that the trial, once all N
    patients of each arm are seen, will show the posterior probability of
    p1 > p2 at or above `target`: it enumerates every pair (x1, x2) of future
    response counts and adds the product of their beta-binomial weights when
    the recomputed probability reaches the target.

    A nested integral that fails to converge aborts the program through
    `expect`; here that is an `Err(Panic(msg))` that every enclosing
    computation passes on.
 */
module ProbabilityEngine {
  import opened Outcomes
  import opened SpecialFunctions
  import opened Quadrature

  datatype PriorParams = PriorParams(alpha: real, beta: real)

  /** y responses among the n patients seen so far, out of N planned. */
  datatype Data = Data(y: nat, N: nat, n: nat)

  const InnerMsg := "inner integral failed to converge"
  const OuterMsg := "posterior probability failed to converge"

  /** Tolerance and budget of both integrals of `post_prob`. */
  const PostEps: real := 0.0000001
  const PostSteps: nat := 1000

  /** Tolerances and budget of the recomputed probability of `pred_prob`. */
  const PredInnerEps: real := 0.01
  const PredOuterEps: real := 0.001
  const PredSteps: nat := 1000

  /** Posterior shapes (alpha + y, beta + n - y) after the data seen so far. */
  function PostAlpha(pr: PriorParams, d: Data): real {
    pr.alpha + d.y as real
  }

  function PostBeta(pr: PriorParams, d: Data): real {
    pr.beta + d.n as real - d.y as real
  }

  /** Both posterior shapes are positive, as `log_gamma` demands of them. */
  predicate Admissible(pr: PriorParams, d: Data) {
    PostAlpha(pr, d) > 0.0 && PostBeta(pr, d) > 0.0
  }

  /** Shapes after x further responses among the N - n remaining patients:
      (alpha + y + x, beta + N - y - x). */
  function FutureAlpha(pr: PriorParams, d: Data, x: nat): real {
    pr.alpha + d.y as real + x as real
  }

  function FutureBeta(pr: PriorParams, d: Data, x: nat): real {
    pr.beta + d.N as real - d.y as real - x as real
  }

  /** The remaining sample size `N - n`, a `u64` subtraction. */
  function Remaining(d: Data): (k: nat)
    requires d.n <= d.N
    ensures d.n + k == d.N
  {
    d.N - d.n
  }

  /** Admissible posterior shapes stay positive for every future count x of
      the remaining patients, so every nested `log_gamma` call is allowed. */
  lemma FutureShapesPositive(pr: PriorParams, d: Data, x: nat)
    requires Admissible(pr, d) && d.n <= d.N && x <= Remaining(d)
    ensures FutureAlpha(pr, d, x) >= PostAlpha(pr, d) > 0.0
    ensures FutureBeta(pr, d, x) >= PostBeta(pr, d) > 0.0
    ensures PostAlpha(pr, d) + x as real > 0.0
    ensures (Remaining(d) as real) - x as real + PostBeta(pr, d) > 0.0
  {
  }

  // ---------------------------------------------------------------------
  // post_prob
  // ---------------------------------------------------------------------

  /** The inner integrand of `post_prob`: the arm-2 posterior density. */
  function PostInner(m: MathLib, pr2: PriorParams, d2: Data): (f: Integrand)
    requires m.Valid() && Admissible(pr2, d2)
    ensures forall p2 :: f.requires(p2) && f(p2).Ok?
  {
    p2 => Ok(BetaDens(m, p2, PostAlpha(pr2, d2), PostBeta(pr2, d2)))
  }

  /** The inner integral of `post_prob` for the outer point p1: over [0, p1 - delta]. */
  function PostInnerIntegral(m: MathLib, delta: real, pr2: PriorParams, d2: Data, p1: real): (r: Result<real>)
    requires m.Valid() && Admissible(pr2, d2) && delta <= p1
    ensures r.Ok? || r == Err(FailedToConverge)
  {
    IntegrateExhausted(PostInner(m, pr2, d2), 0.0, p1 - delta, PostEps, PostSteps);
    Integrate(PostInner(m, pr2, d2), 0.0, p1 - delta, PostEps, PostSteps)
  }

  /** The outer integrand of `post_prob`: the arm-1 posterior density at p1
      times the inner integral over [0, p1 - delta], which is a well-formed
      interval whenever p1 >= delta. */
  function PostOuter(m: MathLib, delta: real, pr1: PriorParams, d1: Data, pr2: PriorParams, d2: Data): (f: Integrand)
    requires m.Valid() && Admissible(pr1, d1) && Admissible(pr2, d2)
    ensures forall p1 :: delta <= p1 ==> f.requires(p1)
  {
    p1 requires delta <= p1 =>
      var inner :- Expect(PostInnerIntegral(m, delta, pr2, d2, p1), InnerMsg);
      Ok(BetaDens(m, p1, PostAlpha(pr1, d1), PostBeta(pr1, d1)) * inner)
  }

  /** `post_prob(delta, data1, data2, prior1, prior2)`. */
  function PostProb(m: MathLib, delta: real, d1: Data, d2: Data, pr1: PriorParams, pr2: PriorParams): (r: Result<real>)
    requires m.Valid()
    requires 0.0 < delta < 1.0
    requires Admissible(pr1, d1) && Admissible(pr2, d2)
    ensures r.Err? ==> r.error.Panic?
  {
    Expect(Integrate(PostOuter(m, delta, pr1, d1, pr2, d2), delta, 1.0, PostEps, PostSteps), OuterMsg)
  }

  /** `post_prob` fails in exactly two ways: the outer integral did not
      converge, or it did but an inner integral over some [0, p1 - delta]
      with p1 in [delta, 1] did not. */
  lemma PostProbFailures(m: MathLib, delta: real, d1: Data, d2: Data, pr1: PriorParams, pr2: PriorParams)
    requires m.Valid()
    requires 0.0 < delta < 1.0
    requires Admissible(pr1, d1) && Admissible(pr2, d2)
    ensures var r := PostProb(m, delta, d1, d2, pr1, pr2);
      r.Err? ==> r.error == Panic(InnerMsg) || r.error == Panic(OuterMsg)
    ensures PostProb(m, delta, d1, d2, pr1, pr2) == Err(Panic(OuterMsg))
      <== Integrate(PostOuter(m, delta, pr1, d1, pr2, d2), delta, 1.0, PostEps, PostSteps) == Err(FailedToConverge)
    ensures PostProb(m, delta, d1, d2, pr1, pr2) == Err(Panic(InnerMsg)) ==>
      exists p1 :: delta <= p1 <= 1.0 && PostInnerIntegral(m, delta, pr2, d2, p1) == Err(FailedToConverge)
  {
    var outer := PostOuter(m, delta, pr1, d1, pr2, d2);
    var o := Integrate(outer, delta, 1.0, PostEps, PostSteps);
    IntegrateErrors(outer, delta, 1.0, PostEps, PostSteps);
    if o.Err? && o.error != FailedToConverge {
      var p1 :| delta <= p1 <= 1.0 && outer(p1) == Err(o.error);
      var i := PostInnerIntegral(m, delta, pr2, d2, p1);
      assert i == Err(FailedToConverge);
      assert o.error == Panic(InnerMsg);
    }
  }

  // ---------------------------------------------------------------------
  // pred_prob
  // ---------------------------------------------------------------------


  /** The arguments of `pred_prob` other than `target`. */
  datatype Trial = Trial(m: MathLib, d1: Data, d2: Data, pr1: PriorParams, pr2: PriorParams) {

    /** What `pred_prob` demands: positive posterior shapes, and n <= N in
        each arm for the `u64` subtraction `N - n`. */
    ghost predicate Valid() {
      m.Valid() && Admissible(pr1, d1) && d1.n <= d1.N && Admissible(pr2, d2) && d2.n <= d2.N
    }

    /** The largest future response counts, `N1 - n1` and `N2 - n2`. */
    function K1(): nat
      requires Valid()
    {
      Remaining(d1)
    }

    function K2(): nat
      requires Valid()
    {
      Remaining(d2)
    }
  }

  /** Arm 1's density after x1 further responses, integrated over [p2, 1]. */
  function PredInner(m: MathLib, pr1: PriorParams, d1: Data, x1: nat): (f: Integrand)
    requires m.Valid() && Admissible(pr1, d1) && d1.n <= d1.N && x1 <= Remaining(d1)
    ensures forall p1 :: f.requires(p1) && f(p1).Ok?
  {
    FutureShapesPositive(pr1, d1, x1);
    p1 => Ok(BetaDens(m, p1, FutureAlpha(pr1, d1, x1), FutureBeta(pr1, d1, x1)))
  }

  /** The recomputed probability's outer integrand: arm 2's density after x2
      further responses at p2, times the inner integral over [p2, 1], which is
      a well-formed interval whenever p2 <= 1.  There is no delta here. */
  function PredOuter(t: Trial, x1: nat, x2: nat): (f: Integrand)
    requires t.Valid() && x1 <= t.K1() && x2 <= t.K2()
    ensures forall p2 :: p2 <= 1.0 ==> f.requires(p2)
  {
    FutureShapesPositive(t.pr2, t.d2, x2);
    p2 requires p2 <= 1.0 =>
      var inner :- Expect(Integrate(PredInner(t.m, t.pr1, t.d1, x1), p2, 1.0, PredInnerEps, PredSteps), InnerMsg);
      Ok(BetaDens(t.m, p2, FutureAlpha(t.pr2, t.d2, x2), FutureBeta(t.pr2, t.d2, x2)) * inner)
  }

  /** The probability recomputed for the future pair (x1, x2): the outer
      integral over [0, 1]. */
  function PairProb(t: Trial, x1: nat, x2: nat): (r: Result<real>)
    requires t.Valid() && x1 <= t.K1() && x2 <= t.K2()
    ensures r.Err? ==> r.error == Panic(InnerMsg) || r.error == Panic(OuterMsg)
  {
    PairProbFailures(t, x1, x2);
    Expect(Integrate(PredOuter(t, x1, x2), 0.0, 1.0, PredOuterEps, PredSteps), OuterMsg)
  }

  /** A failure of the recomputed probability's outer integral is either
      its own non-convergence or the panic of an inner integral. */
  lemma PairProbFailures(t: Trial, x1: nat, x2: nat)
    requires t.Valid() && x1 <= t.K1() && x2 <= t.K2()
    ensures var o := Integrate(PredOuter(t, x1, x2), 0.0, 1.0, PredOuterEps, PredSteps);
      o.Err? ==> o.error == FailedToConverge || o.error == Panic(InnerMsg)
  {
    var inner := PredInner(t.m, t.pr1, t.d1, x1);
    var outer := PredOuter(t, x1, x2);
    var o := Integrate(outer, 0.0, 1.0, PredOuterEps, PredSteps);
    IntegrateErrors(outer, 0.0, 1.0, PredOuterEps, PredSteps);
    if o.Err? && o.error != FailedToConverge {
      var p2 :| 0.0 <= p2 <= 1.0 && outer(p2) == Err(o.error);
      IntegrateExhausted(inner, p2, 1.0, PredInnerEps, PredSteps);
      assert o.error == Panic(InnerMsg);
    }
  }

  /** The beta-binomial weight of x responses among the N - n remaining
      patients under the current posterior; `x <= N - n` is what the `u64`
      subtraction in `nchoosek` needs. */
  function Weight(m: MathLib, pr: PriorParams, d: Data, x: nat): (w: real)
    requires m.Valid() && Admissible(pr, d) && d.n <= d.N && x <= Remaining(d)
    ensures w >= 0.0
  {
    FutureShapesPositive(pr, d, x);
    BetaBinDens(m, x, Remaining(d), PostAlpha(pr, d), PostBeta(pr, d))
  }

  /** The weights of x = 0, ..., N - n: a predictive distribution over the
      future response counts, so never negative. */
  function Weights(m: MathLib, pr: PriorParams, d: Data): (ws: seq<real>)
    requires m.Valid() && Admissible(pr, d) && d.n <= d.N
    ensures |ws| == Remaining(d) + 1
    ensures NonNegative(ws)
  {
    seq(Remaining(d) + 1, x requires 0 <= x <= Remaining(d) => Weight(m, pr, d, x))
  }

  ghost predicate NonNegative(ws: seq<real>) {
    forall i :: 0 <= i < |ws| ==> ws[i] >= 0.0
  }

  /** The total of the first k weights. */
  function Total(ws: seq<real>, k: nat): real
    requires k <= |ws|
  {
    if k == 0 then 0.0 else Total(ws, k - 1) + ws[k - 1]
  }

  /** The probabilities `pred_prob` recomputes, one per future pair. */
  function Probs(t: Trial): (probs: PairProbs)
    requires t.Valid()
    ensures CoversGrid(probs, t.K1() + 1, t.K2() + 1)
  {
    (x1: nat, x2: nat) requires x1 <= t.K1() && x2 <= t.K2() => PairProb(t, x1, x2)
  }

  /** What `pred_prob(target, data1, data2, prior1, prior2)` returns: the whole
      grid [0, N1 - n1] x [0, N2 - n2] with the recomputed probabilities and
      the beta-binomial weights of both arms. */
  function PredSpec(t: Trial, target: real): Result<real>
    requires t.Valid()
  {
    var w1 := Weights(t.m, t.pr1, t.d1);
    GridSum(Probs(t), target, w1, Weights(t.m, t.pr2, t.d2), |w1|)
  }

  /** `pred_prob(target, data1, data2, prior1, prior2)`. */
  method PredProb(m: MathLib, target: real, d1: Data, d2: Data, pr1: PriorParams, pr2: PriorParams) returns (r: Result<real>)
    requires m.Valid()
    requires d1.n <= d1.N && d2.n <= d2.N
    requires Admissible(pr1, d1) && Admissible(pr2, d2)
    ensures r == PredSpec(Trial(m, d1, d2, pr1, pr2), target)
  {
    var t := Trial(m, d1, d2, pr1, pr2);
    r := Accumulate(Probs(t), target, Weights(m, pr1, d1), Weights(m, pr2, d2));
  }

  // ---------------------------------------------------------------------
  // The enumerate-and-accumulate loops, for any probabilities and weights
  // ---------------------------------------------------------------------

  /** A probability (or panic) for each future pair (x1, x2). */
  type PairProbs = (nat, nat) --> Result<real>

  ghost predicate CoversGrid(probs: PairProbs, n1: nat, n2: nat) {
    forall x1: nat, x2: nat :: x1 < n1 && x2 < n2 ==> probs.requires(x1, x2)
  }

  /** The inner loop for row x1: pairs (x1, 0), ..., (x1, k - 1) visited in
      order from the running sum `acc`; a pair whose probability reaches the
      target adds the product of its two weights, a panic ends everything. */
  function RowSum(probs: PairProbs, target: real, w1: seq<real>, w2: seq<real>, x1: nat, k: nat, acc: real): Result<real>
    requires CoversGrid(probs, |w1|, |w2|)
    requires x1 < |w1| && k <= |w2|
  {
    if k == 0 then Ok(acc)
    else
      var s :- RowSum(probs, target, w1, w2, x1, k - 1, acc);
      var prob :- probs(x1, k - 1);
      Ok(if prob >= target then s + w1[x1] * w2[k - 1] else s)
  }

  /** Rows 0, ..., k - 1, in order, from a zero sum. */
  function GridSum(probs: PairProbs, target: real, w1: seq<real>, w2: seq<real>, k: nat): Result<real>
    requires CoversGrid(probs, |w1|, |w2|)
    requires k <= |w1|
  {
    if k == 0 then Ok(0.0)
    else
      var s :- GridSum(probs, target, w1, w2, k - 1);
      RowSum(probs, target, w1, w2, k - 1, |w2|, s)
  }

  /** The nested loops of `pred_prob`: x1 over 0..=N1-n1 and, for each x1,
      x2 over 0..=N2-n2; `probs(x1, x2)` is the recomputed probability and
      `w1[x1] * w2[x2]` the product of the two beta-binomial weights. */
  method Accumulate(probs: PairProbs, target: real, w1: seq<real>, w2: seq<real>) returns (r: Result<real>)
    requires CoversGrid(probs, |w1|, |w2|)
    ensures r == GridSum(probs, target, w1, w2, |w1|)
  {
    var sum := 0.0;
    for x1 := 0 to |w1|
      invariant GridSum(probs, target, w1, w2, x1).Ok? && GridSum(probs, target, w1, w2, x1).value == sum
    {
      ghost var rowStart := sum;
      GridSumStep(probs, target, w1, w2, x1);
      for x2 := 0 to |w2|
        invariant RowSum(probs, target, w1, w2, x1, x2, rowStart).Ok?
        invariant RowSum(probs, target, w1, w2, x1, x2, rowStart).value == sum
      {
        var prob := probs(x1, x2);
        RowSumStep(probs, target, w1, w2, x1, x2, rowStart);
        if prob.IsFailure() {
          RowErrPersists(probs, target, w1, w2, x1, x2 + 1, |w2|, rowStart);
          GridErrPersists(probs, target, w1, w2, x1 + 1, |w1|);
          return prob.PropagateFailure();
        }
        if prob.value >= target {
          sum := sum + w1[x1] * w2[x2];
        }
      }
    }
    r := Ok(sum);
  }

  /** One pair of the inner loop. */
  lemma RowSumStep(probs: PairProbs, target: real, w1: seq<real>, w2: seq<real>, x1: nat, k: nat, acc: real)
    requires CoversGrid(probs, |w1|, |w2|)
    requires x1 < |w1| && k < |w2|
    requires RowSum(probs, target, w1, w2, x1, k, acc).Ok?
    ensures probs(x1, k).Err? ==> RowSum(probs, target, w1, w2, x1, k + 1, acc) == Err(probs(x1, k).error)
    ensures probs(x1, k).Ok? ==>
      var s := RowSum(probs, target, w1, w2, x1, k, acc).value;
      RowSum(probs, target, w1, w2, x1, k + 1, acc).Ok?
      && RowSum(probs, target, w1, w2, x1, k + 1, acc).value
         == if probs(x1, k).value >= target then s + w1[x1] * w2[k] else s
  {
  }

  /** One row of the outer loop. */
  lemma GridSumStep(probs: PairProbs, target: real, w1: seq<real>, w2: seq<real>, k: nat)
    requires CoversGrid(probs, |w1|, |w2|)
    requires k < |w1|
    requires GridSum(probs, target, w1, w2, k).Ok?
    ensures GridSum(probs, target, w1, w2, k + 1) == RowSum(probs, target, w1, w2, k, |w2|, GridSum(probs, target, w1, w2, k).value)
  {
  }

  lemma {:induction false} RowErrPersists(probs: PairProbs, target: real, w1: seq<real>, w2: seq<real>, x1: nat, k: nat, k': nat, acc: real)
    requires CoversGrid(probs, |w1|, |w2|)
    requires x1 < |w1| && k <= k' <= |w2|
    requires RowSum(probs, target, w1, w2, x1, k, acc).Err?
    ensures RowSum(probs, target, w1, w2, x1, k', acc) == RowSum(probs, target, w1, w2, x1, k, acc)
    decreases k'
  {
    if k' > k {
      RowErrPersists(probs, target, w1, w2, x1, k, k' - 1, acc);
    }
  }

  lemma {:induction false} GridErrPersists(probs: PairProbs, target: real, w1: seq<real>, w2: seq<real>, k: nat, k': nat)
    requires CoversGrid(probs, |w1|, |w2|)
    requires k <= k' <= |w1|
    requires GridSum(probs, target, w1, w2, k).Err?
    ensures GridSum(probs, target, w1, w2, k') == GridSum(probs, target, w1, w2, k)
    decreases k'
  {
    if k' > k {
      GridErrPersists(probs, target, w1, w2, k, k' - 1);
    }
  }

  // ---------------------------------------------------------------------
  // What the loops promise
  // ---------------------------------------------------------------------

  /** Lowering the target, from a running sum at least as large, keeps the
      outcome of a row (same success, same panic) and can only raise its sum. */
  lemma {:induction false} RowMonotone(probs: PairProbs, lo: real, hi: real, w1: seq<real>, w2: seq<real>,
                                      x1: nat, k: nat, accLo: real, accHi: real)
    requires CoversGrid(probs, |w1|, |w2|) && NonNegative(w1) && NonNegative(w2)
    requires x1 < |w1| && k <= |w2|
    requires lo <= hi && accLo >= accHi
    ensures RowSum(probs, lo, w1, w2, x1, k, accLo).Ok? <==> RowSum(probs, hi, w1, w2, x1, k, accHi).Ok?
    ensures RowSum(probs, lo, w1, w2, x1, k, accLo).Err? ==>
      RowSum(probs, lo, w1, w2, x1, k, accLo).error == RowSum(probs, hi, w1, w2, x1, k, accHi).error
    ensures RowSum(probs, lo, w1, w2, x1, k, accLo).Ok? ==>
      RowSum(probs, lo, w1, w2, x1, k, accLo).value >= RowSum(probs, hi, w1, w2, x1, k, accHi).value
    decreases k
  {
    if k > 0 {
      RowMonotone(probs, lo, hi, w1, w2, x1, k - 1, accLo, accHi);
      if RowSum(probs, lo, w1, w2, x1, k - 1, accLo).Ok? {
        RowSumStep(probs, lo, w1, w2, x1, k - 1, accLo);
        RowSumStep(probs, hi, w1, w2, x1, k - 1, accHi);
        ProductNonNegative(w1[x1], w2[k - 1]);
      }
    }
  }

  lemma ProductNonNegative(x: real, y: real)
    requires x >= 0.0 && y >= 0.0
    ensures x * y >= 0.0
  {
  }

  lemma {:induction false} GridMonotone(probs: PairProbs, lo: real, hi: real, w1: seq<real>, w2: seq<real>, k: nat)
    requires CoversGrid(probs, |w1|, |w2|) && NonNegative(w1) && NonNegative(w2)
    requires k <= |w1|
    requires lo <= hi
    ensures GridSum(probs, lo, w1, w2, k).Ok? <==> GridSum(probs, hi, w1, w2, k).Ok?
    ensures GridSum(probs, lo, w1, w2, k).Err? ==> GridSum(probs, lo, w1, w2, k).error == GridSum(probs, hi, w1, w2, k).error
    ensures GridSum(probs, lo, w1, w2, k).Ok? ==> GridSum(probs, lo, w1, w2, k).value >= GridSum(probs, hi, w1, w2, k).value
    decreases k
  {
    if k > 0 {
      GridMonotone(probs, lo, hi, w1, w2, k - 1);
      var gLo := GridSum(probs, lo, w1, w2, k - 1);
      if gLo.Ok? {
        GridSumStep(probs, lo, w1, w2, k - 1);
        GridSumStep(probs, hi, w1, w2, k - 1);
        RowMonotone(probs, lo, hi, w1, w2, k - 1, |w2|, gLo.value, GridSum(probs, hi, w1, w2, k - 1).value);
      }
    }
  }

  /** A panic of the loops is the panic of some pair of the grid. */
  lemma {:induction false} RowErrors(probs: PairProbs, target: real, w1: seq<real>, w2: seq<real>, x1: nat, k: nat, acc: real)
    requires CoversGrid(probs, |w1|, |w2|)
    requires x1 < |w1| && k <= |w2|
    ensures RowSum(probs, target, w1, w2, x1, k, acc).Err? ==>
      exists x2: nat :: x2 < k && probs(x1, x2) == RowSum(probs, target, w1, w2, x1, k, acc)
    decreases k
  {
    if k > 0 {
      RowErrors(probs, target, w1, w2, x1, k - 1, acc);
      if RowSum(probs, target, w1, w2, x1, k - 1, acc).Ok? {
        RowSumStep(probs, target, w1, w2, x1, k - 1, acc);
      }
    }
  }

  lemma {:induction false} GridErrors(probs: PairProbs, target: real, w1: seq<real>, w2: seq<real>, k: nat)
    requires CoversGrid(probs, |w1|, |w2|)
    requires k <= |w1|
    ensures GridSum(probs, target, w1, w2, k).Err? ==>
      exists x1: nat, x2: nat :: x1 < k && x2 < |w2| && probs(x1, x2) == GridSum(probs, target, w1, w2, k)
    decreases k
  {
    if k > 0 {
      GridErrors(probs, target, w1, w2, k - 1);
      var g := GridSum(probs, target, w1, w2, k - 1);
      if g.Ok? {
        GridSumStep(probs, target, w1, w2, k - 1);
        RowErrors(probs, target, w1, w2, k - 1, |w2|, g.value);
      }
    }
  }

  /** The sum of x * w2[j] over j < k: what a row adds when every one of its
      first k pairs reaches the target. */
  function RowTotal(x: real, w2: seq<real>, k: nat): real
    requires k <= |w2|
  {
    if k == 0 then 0.0 else RowTotal(x, w2, k - 1) + x * w2[k - 1]
  }

  /** The sum of w1[i] * w2[j] over i < k and every j. */
  function GridTotal(w1: seq<real>, w2: seq<real>, k: nat): real
    requires k <= |w1|
  {
    if k == 0 then 0.0 else GridTotal(w1, w2, k - 1) + RowTotal(w1[k - 1], w2, |w2|)
  }

  /** When every pair of a row reaches the target, the row adds the product
      of each pair's two weights. */
  lemma {:induction false} RowAll(probs: PairProbs, target: real, w1: seq<real>, w2: seq<real>, x1: nat, k: nat, acc: real)
    requires CoversGrid(probs, |w1|, |w2|)
    requires x1 < |w1| && k <= |w2|
    requires forall x2: nat :: x2 < k ==> probs(x1, x2).Ok? && probs(x1, x2).value >= target
    ensures RowSum(probs, target, w1, w2, x1, k, acc).Ok?
    ensures RowSum(probs, target, w1, w2, x1, k, acc).value == acc + RowTotal(w1[x1], w2, k)
    decreases k
  {
    if k > 0 {
      RowAll(probs, target, w1, w2, x1, k - 1, acc);
      RowSumStep(probs, target, w1, w2, x1, k - 1, acc);
    }
  }

  /** When every pair of the first k rows reaches the target, each pair adds
      its weight product exactly once. */
  lemma {:induction false} GridAll(probs: PairProbs, target: real, w1: seq<real>, w2: seq<real>, k: nat)
    requires CoversGrid(probs, |w1|, |w2|)
    requires k <= |w1|
    requires forall x1: nat, x2: nat :: x1 < k && x2 < |w2| ==> probs(x1, x2).Ok? && probs(x1, x2).value >= target
    ensures GridSum(probs, target, w1, w2, k).Ok?
    ensures GridSum(probs, target, w1, w2, k).value == GridTotal(w1, w2, k)
    decreases k
  {
    if k > 0 {
      GridAll(probs, target, w1, w2, k - 1);
      GridSumStep(probs, target, w1, w2, k - 1);
      RowAll(probs, target, w1, w2, k - 1, |w2|, GridTotal(w1, w2, k - 1));
    }
  }

  lemma {:induction false} RowTotalFactor(x: real, w2: seq<real>, k: nat)
    requires k <= |w2|
    ensures RowTotal(x, w2, k) == x * Total(w2, k)
    decreases k
  {
    if k > 0 {
      RowTotalFactor(x, w2, k - 1);
      Distributes(x, Total(w2, k - 1), w2[k - 1]);
    }
  }

  /** The double sum of weight products factorises into the product of the
      two totals. */
  lemma {:induction false} GridTotalFactor(w1: seq<real>, w2: seq<real>, k: nat)
    requires k <= |w1|
    ensures GridTotal(w1, w2, k) == Total(w1, k) * Total(w2, |w2|)
    decreases k
  {
    if k > 0 {
      GridTotalFactor(w1, w2, k - 1);
      RowTotalFactor(w1[k - 1], w2, |w2|);
      FactorRight(Total(w1, k - 1), w1[k - 1], Total(w2, |w2|));
    }
  }

  /** When every pair of the grid reaches the target, the sum is the total of
      the arm-1 weights times that of the arm-2 weights. */
  lemma GridAllWhole(probs: PairProbs, target: real, w1: seq<real>, w2: seq<real>)
    requires CoversGrid(probs, |w1|, |w2|)
    requires forall x1: nat, x2: nat :: x1 < |w1| && x2 < |w2| ==> probs(x1, x2).Ok? && probs(x1, x2).value >= target
    ensures GridSum(probs, target, w1, w2, |w1|).Ok?
    ensures GridSum(probs, target, w1, w2, |w1|).value == Total(w1, |w1|) * Total(w2, |w2|)
  {
    GridAll(probs, target, w1, w2, |w1|);
    GridTotalFactor(w1, w2, |w1|);
  }

  lemma Distributes(x: real, y: real, z: real)
    ensures x * (y + z) == x * y + x * z
  {
  }

  lemma FactorRight(t1: real, x: real, t2: real)
    ensures t1 * t2 + x * t2 == (t1 + x) * t2
  {
  }

  /** When no pair of a row reaches the target, the row adds nothing. */
  lemma {:induction false} RowNone(probs: PairProbs, target: real, w1: seq<real>, w2: seq<real>, x1: nat, k: nat, acc: real)
    requires CoversGrid(probs, |w1|, |w2|)
    requires x1 < |w1| && k <= |w2|
    requires forall x2: nat :: x2 < k ==> probs(x1, x2).Ok? && probs(x1, x2).value < target
    ensures RowSum(probs, target, w1, w2, x1, k, acc).Ok? && RowSum(probs, target, w1, w2, x1, k, acc).value == acc
    decreases k
  {
    if k > 0 {
      RowNone(probs, target, w1, w2, x1, k - 1, acc);
      RowSumStep(probs, target, w1, w2, x1, k - 1, acc);
    }
  }

  lemma {:induction false} GridNone(probs: PairProbs, target: real, w1: seq<real>, w2: seq<real>, k: nat)
    requires CoversGrid(probs, |w1|, |w2|)
    requires k <= |w1|
    requires forall x1: nat, x2: nat :: x1 < k && x2 < |w2| ==> probs(x1, x2).Ok? && probs(x1, x2).value < target
    ensures GridSum(probs, target, w1, w2, k).Ok? && GridSum(probs, target, w1, w2, k).value == 0.0
    decreases k
  {
    if k > 0 {
      GridNone(probs, target, w1, w2, k - 1);
      GridSumStep(probs, target, w1, w2, k - 1);
      RowNone(probs, target, w1, w2, k - 1, |w2|, 0.0);
    }
  }

  // ---------------------------------------------------------------------
  // The same, for `pred_prob` itself
  // ---------------------------------------------------------------------

  /** `pred_prob` is non-increasing in `target`, and whether it panics, and
      with which message, does not depend on `target` at all. */
  lemma PredMonotone(t: Trial, lo: real, hi: real)
    requires t.Valid() && lo <= hi
    ensures PredSpec(t, lo).Ok? <==> PredSpec(t, hi).Ok?
    ensures PredSpec(t, lo).Err? ==> PredSpec(t, lo).error == PredSpec(t, hi).error
    ensures PredSpec(t, lo).Ok? ==> PredSpec(t, lo).value >= PredSpec(t, hi).value
  {
    var w1 := Weights(t.m, t.pr1, t.d1);
    GridMonotone(Probs(t), lo, hi, w1, Weights(t.m, t.pr2, t.d2), |w1|);
  }

  /** `pred_prob` panics only with the messages of the two integrals. */
  lemma PredFailures(t: Trial, target: real)
    requires t.Valid()
    ensures PredSpec(t, target).Err? ==>
      PredSpec(t, target).error == Panic(InnerMsg) || PredSpec(t, target).error == Panic(OuterMsg)
  {
    var w1 := Weights(t.m, t.pr1, t.d1);
    GridErrors(Probs(t), target, w1, Weights(t.m, t.pr2, t.d2), |w1|);
  }
}
