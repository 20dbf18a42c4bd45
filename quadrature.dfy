/** The adaptive trapezoid integrator of bayes_predict/src/main.rs (`trapezoid`).

    Iteration 1 is the two-point trapezoid; iteration i >= 2 evaluates the
    integrand at the 2^(i-2) midpoints of the current panels and averages the
    previous estimate with the midpoint contribution.  From iteration 6 on
    (the `i > 5` gate) the loop stops as soon as two successive estimates
    agree to the relative tolerance `eps`, or are both exactly zero; running
    out of iterations is a failure, never a value.

    The loop logic (the gate, the stopping test, the budget, the passing on
    of failures) does not depend on what an iteration computes, so it is
    stated once over an arbitrary refinement step, and `Integrate` is that
    loop run with the trapezoid step `Refine`.

    Numbers are reals.  The integrand is a partial function returning a
    `Result`, so that a panic inside it (a nested integral that failed) is
    passed on as the integrator's result, and so that the points at which the
    integrand is evaluated must be admissible: the integrator only ever asks
    for points of [a, b].
 */
module Quadrature {
  import opened Outcomes

  type Integrand = real --> Result<real>

  /** A refinement step: iteration i >= 1 maps the estimate of iteration
      i - 1 (0 before the first iteration) to the next one, or fails. */
  type Step = (nat, real) --> Result<real>

  /** Iterations that always run before the convergence test is applied. */
  const Gate: nat := 5

  function Abs(x: real): real {
    if x < 0.0 then -x else x
  }

  /** The stopping test: relative agreement, or both estimates exactly zero. */
  predicate Converged(prev: real, v: real, eps: real) {
    Abs(v - prev) < eps * Abs(prev) || (prev == 0.0 && v == 0.0)
  }

  function Pow2(k: nat): (r: nat)
    ensures r >= 1
  {
    if k == 0 then 1 else 2 * Pow2(k - 1)
  }

  /** The integrand may be evaluated anywhere in [a, b]. */
  ghost predicate DefinedOn(f: Integrand, a: real, b: real) {
    forall x :: a <= x <= b ==> f.requires(x)
  }

  /** The integrand is the constant c on [a, b]. */
  ghost predicate ConstantOn(f: Integrand, a: real, b: real, c: real)
    requires DefinedOn(f, a, b)
  {
    forall x :: a <= x <= b ==> f(x).Ok? && f(x).value == c
  }

  /** The integrand never panics on [a, b]. */
  ghost predicate NoPanicOn(f: Integrand, a: real, b: real)
    requires DefinedOn(f, a, b)
  {
    forall x :: a <= x <= b ==> f(x).Ok?
  }

  /** Point j of n equal panels of [a, b], taken at the panel's middle:
      `a + (j + 0.5) h` with `h = (b - a) / n`. */
  function PanelMiddle(a: real, b: real, n: nat, j: nat): real
    requires n >= 1
  {
    a + (j as real + 0.5) * ((b - a) / (n as real))
  }

  lemma PanelMiddleInside(a: real, b: real, n: nat, j: nat)
    requires a <= b && 0 <= j < n
    ensures a <= PanelMiddle(a, b, n, j) <= b
    ensures a < b ==> a < PanelMiddle(a, b, n, j) < b
  {
    var h := (b - a) / (n as real);
    var t := j as real + 0.5;
    assert n as real * h == b - a;
    assert 0.0 < t < n as real;
    assert h >= 0.0;
    assert t * h <= n as real * h by {
      assert (n as real - t) * h >= 0.0;
    }
    if a < b {
      assert t * h > 0.0;
      assert t * h < n as real * h by {
        assert (n as real - t) * h > 0.0;
      }
    }
  }

  /** The n points `a + (j + 1/2) h`, `h = (b - a) / n`, in the order they are
      evaluated: iteration i >= 2 uses n = 2^(i-2) of them, all in [a, b], and
      all strictly inside (a, b) when a < b. */
  function MidPoints(a: real, b: real, n: nat): (pts: seq<real>)
    requires n >= 1
    ensures |pts| == n
    ensures a <= b ==> forall j :: 0 <= j < n ==> a <= pts[j] <= b
    ensures a < b ==> forall j :: 0 <= j < n ==> a < pts[j] < b
  {
    var pts := seq(n, j requires 0 <= j => PanelMiddle(a, b, n, j));
    if a <= b then
      assert forall j :: 0 <= j < n ==> a <= pts[j] <= b && (a < b ==> a < pts[j] < b) by {
        forall j | 0 <= j < n
          ensures a <= pts[j] <= b && (a < b ==> a < pts[j] < b)
        {
          PanelMiddleInside(a, b, n, j);
        }
      }
      pts
    else pts
  }

  /** `(0..n).map(|j| f(..)).sum()`: summed left to right, and the first
      panicking evaluation ends the sum. */
  function SumAt(f: Integrand, pts: seq<real>): Result<real>
    requires forall k :: 0 <= k < |pts| ==> f.requires(pts[k])
    decreases |pts|
  {
    if pts == [] then Ok(0.0)
    else
      var s :- SumAt(f, pts[..|pts| - 1]);
      var y :- f(pts[|pts| - 1]);
      Ok(s + y)
  }

  /** Iteration 1: the two-point trapezoid. */
  function TwoPoint(a: real, b: real, fa: real, fb: real): real {
    0.5 * (b - a) * (fa + fb)
  }

  /** Iteration i >= 2: the previous estimate averaged with `(b - a)` times the
      mean of the n new midpoint values. */
  function Refined(prev: real, width: real, sum: real, n: nat): real
    requires n >= 1
  {
    0.5 * (prev + width * sum / (n as real))
  }

  /** The body of iteration i, given the estimate `prev` of iteration i - 1. */
  function Refine(f: Integrand, a: real, b: real, i: nat, prev: real): Result<real>
    requires 1 <= i && a <= b && DefinedOn(f, a, b)
  {
    if i == 1 then
      var fa :- f(a);
      var fb :- f(b);
      Ok(TwoPoint(a, b, fa, fb))
    else
      var n := Pow2(i - 2);
      var s :- SumAt(f, MidPoints(a, b, n));
      Ok(Refined(prev, b - a, s, n))
  }

  // ---------------------------------------------------------------------
  // The loop of `trapezoid`, over any refinement step
  // ---------------------------------------------------------------------

  /** The step may be taken at every iteration, from every estimate. */
  ghost predicate StepDefined(step: Step) {
    forall i: nat, v: real :: 1 <= i ==> step.requires(i, v)
  }

  /** The estimate of iteration i (i >= 1): the steps 1..i applied in turn. */
  function Estimate(step: Step, i: nat): Result<real>
    requires 1 <= i && StepDefined(step)
  {
    if i == 1 then step(1, 0.0)
    else
      var p :- Estimate(step, i - 1);
      step(i, p)
  }

  /** Iterations i..maxSteps of the loop, `val` being the value of both
      `val` and `old_val` at the head of iteration i. */
  function Run(step: Step, eps: real, maxSteps: nat, i: nat, val: real): Result<real>
    requires 1 <= i && StepDefined(step)
    decreases maxSteps + 1 - i
  {
    if i > maxSteps then Err(FailedToConverge)
    else
      var v :- step(i, val);
      if i > Gate && Converged(val, v, eps) then Ok(v)
      else Run(step, eps, maxSteps, i + 1, v)
  }

  /** One iteration of the loop within the budget. */
  lemma RunStep(step: Step, eps: real, maxSteps: nat, i: nat, val: real)
    requires 1 <= i <= maxSteps && StepDefined(step)
    ensures step(i, val).Err? ==> Run(step, eps, maxSteps, i, val) == step(i, val)
    ensures step(i, val).Ok? && i > Gate && Converged(val, step(i, val).value, eps) ==>
      Run(step, eps, maxSteps, i, val) == step(i, val)
    ensures step(i, val).Ok? && !(i > Gate && Converged(val, step(i, val).value, eps)) ==>
      Run(step, eps, maxSteps, i, val) == Run(step, eps, maxSteps, i + 1, step(i, val).value)
  {
  }

  /** The whole loop: `for i in 1..=max_steps` from `val = old_val = 0`. */
  function Iterate(step: Step, eps: real, maxSteps: nat): Result<real>
    requires StepDefined(step)
  {
    Run(step, eps, maxSteps, 1, 0.0)
  }

  /** Iteration k converged: estimates k - 1 and k exist and pass the test. */
  ghost predicate ConvergesAt(step: Step, eps: real, k: nat)
    requires StepDefined(step)
  {
    k >= 2 && Estimate(step, k - 1).Ok? && Estimate(step, k).Ok?
    && Converged(Estimate(step, k - 1).value, Estimate(step, k).value, eps)
  }

  /** k is the first iteration after the gate, within the budget, that converged. */
  ghost predicate FirstConvergence(step: Step, eps: real, maxSteps: nat, k: nat)
    requires StepDefined(step)
  {
    Gate < k <= maxSteps && ConvergesAt(step, eps, k)
    && forall j :: Gate < j < k ==> !ConvergesAt(step, eps, j)
  }

  /** A panic in an estimate is carried by every later estimate. */
  lemma {:induction false} EstimateErrPersists(step: Step, i: nat, k: nat)
    requires 1 <= i <= k && StepDefined(step)
    requires Estimate(step, i).Err?
    ensures Estimate(step, k) == Estimate(step, i)
    decreases k
  {
    if k > i {
      EstimateErrPersists(step, i, k - 1);
    }
  }

  /** Iterations i.. of the loop, entered with the estimate of iteration i - 1
      and no convergence so far, succeed exactly when some later iteration is
      the first to converge, and then return that iteration's estimate. */
  lemma {:induction false} RunFrom(step: Step, eps: real, maxSteps: nat, i: nat, val: real)
    requires 1 <= i && StepDefined(step)
    requires i == 1 ==> val == 0.0
    requires i >= 2 ==> Estimate(step, i - 1).Ok? && Estimate(step, i - 1).value == val
    requires forall j :: Gate < j < i ==> !ConvergesAt(step, eps, j)
    ensures Run(step, eps, maxSteps, i, val).Ok?
      <==> exists k :: i <= k && FirstConvergence(step, eps, maxSteps, k)
    ensures forall k :: i <= k && FirstConvergence(step, eps, maxSteps, k) ==>
      Run(step, eps, maxSteps, i, val) == Estimate(step, k)
    decreases maxSteps + 1 - i
  {
    if i > maxSteps {
      forall k | i <= k
        ensures !FirstConvergence(step, eps, maxSteps, k)
      {
      }
    } else {
      var e := Estimate(step, i);
      assert step(i, val) == e;
      if e.Err? {
        forall k | i <= k
          ensures !ConvergesAt(step, eps, k)
        {
          EstimateErrPersists(step, i, k);
        }
      } else if i > Gate && Converged(val, e.value, eps) {
        assert ConvergesAt(step, eps, i);
        assert FirstConvergence(step, eps, maxSteps, i);
      } else {
        RunFrom(step, eps, maxSteps, i + 1, e.value);
        if i > Gate {
          assert !ConvergesAt(step, eps, i);
        }
      }
    }
  }

  /** Between the gate and the budget, a converging iteration has a first one. */
  lemma {:induction false} FirstExists(step: Step, eps: real, maxSteps: nat, k: nat)
    requires StepDefined(step)
    requires Gate < k <= maxSteps && ConvergesAt(step, eps, k)
    ensures exists k' :: FirstConvergence(step, eps, maxSteps, k')
    decreases k
  {
    if forall j :: Gate < j < k ==> !ConvergesAt(step, eps, j) {
      assert FirstConvergence(step, eps, maxSteps, k);
    } else {
      var j :| Gate < j < k && ConvergesAt(step, eps, j);
      FirstExists(step, eps, maxSteps, j);
    }
  }

  /** The loop returns `Ok(val)` exactly when some iteration after the gate
      and within the budget passed the test against the previous estimate,
      and `val` is then the estimate of the first such iteration. */
  lemma IterateOkIffConverged(step: Step, eps: real, maxSteps: nat)
    requires StepDefined(step)
    ensures Iterate(step, eps, maxSteps).Ok?
      <==> exists k :: FirstConvergence(step, eps, maxSteps, k)
    ensures forall k :: FirstConvergence(step, eps, maxSteps, k) ==>
      Iterate(step, eps, maxSteps) == Estimate(step, k)
  {
    RunFrom(step, eps, maxSteps, 1, 0.0);
  }

  /** The step never panics, whatever the iteration and the estimate. */
  ghost predicate NoPanic(step: Step)
    requires StepDefined(step)
  {
    forall i: nat, v: real :: 1 <= i ==> step(i, v).Ok?
  }

  lemma {:induction false} RunNoPanic(step: Step, eps: real, maxSteps: nat, i: nat, val: real)
    requires 1 <= i && StepDefined(step) && NoPanic(step)
    ensures Run(step, eps, maxSteps, i, val).Ok? || Run(step, eps, maxSteps, i, val) == Err(FailedToConverge)
    decreases maxSteps + 1 - i
  {
    if i <= maxSteps {
      var v := step(i, val).value;
      if !(i > Gate && Converged(val, v, eps)) {
        RunNoPanic(step, eps, maxSteps, i + 1, v);
      }
    }
  }

  /** With a step that never panics, the loop fails exactly when no iteration
      between the gate and the budget converged, and then the failure is
      "failed to converge": the budget is never turned into a value. */
  lemma IterateExhausted(step: Step, eps: real, maxSteps: nat)
    requires StepDefined(step) && NoPanic(step)
    ensures Iterate(step, eps, maxSteps).Ok? || Iterate(step, eps, maxSteps) == Err(FailedToConverge)
    ensures Iterate(step, eps, maxSteps) == Err(FailedToConverge)
      <==> forall k :: Gate < k <= maxSteps ==> !ConvergesAt(step, eps, k)
  {
    IterateOkIffConverged(step, eps, maxSteps);
    RunNoPanic(step, eps, maxSteps, 1, 0.0);
    if exists k :: Gate < k <= maxSteps && ConvergesAt(step, eps, k) {
      var k :| Gate < k <= maxSteps && ConvergesAt(step, eps, k);
      FirstExists(step, eps, maxSteps, k);
    }
  }

  /** The step fails with `e` at some iteration, from some estimate. */
  ghost predicate Raises(step: Step, e: Error)
    requires StepDefined(step)
  {
    exists i: nat, v: real :: 1 <= i && step(i, v) == Err(e)
  }

  lemma {:induction false} RunErrors(step: Step, eps: real, maxSteps: nat, i: nat, val: real)
    requires 1 <= i && StepDefined(step)
    ensures Run(step, eps, maxSteps, i, val).Err? ==>
      Run(step, eps, maxSteps, i, val).error == FailedToConverge
      || Raises(step, Run(step, eps, maxSteps, i, val).error)
    decreases maxSteps + 1 - i
  {
    if i <= maxSteps {
      var e := step(i, val);
      if e.Err? {
        assert Run(step, eps, maxSteps, i, val) == e;
      } else if !(i > Gate && Converged(val, e.value, eps)) {
        RunErrors(step, eps, maxSteps, i + 1, e.value);
      }
    }
  }

  /** The loop fails only by not converging, or by passing on a failure of
      one of its steps. */
  lemma IterateErrors(step: Step, eps: real, maxSteps: nat)
    requires StepDefined(step)
    ensures Iterate(step, eps, maxSteps).Err? ==>
      Iterate(step, eps, maxSteps).error == FailedToConverge
      || Raises(step, Iterate(step, eps, maxSteps).error)
  {
    RunErrors(step, eps, maxSteps, 1, 0.0);
  }

  /** The value v is the first estimate and every later step keeps it. */
  ghost predicate FixedAt(step: Step, v: real)
    requires StepDefined(step)
  {
    step(1, 0.0) == Ok(v) && forall i: nat :: 2 <= i ==> step(i, v) == Ok(v)
  }

  lemma {:induction false} EstimateFixed(step: Step, v: real, i: nat)
    requires 1 <= i && StepDefined(step) && FixedAt(step, v)
    ensures Estimate(step, i) == Ok(v)
    decreases i
  {
    if i > 1 {
      EstimateFixed(step, v, i - 1);
    }
  }

  /** Iterations i >= 2 of the loop entered with a fixed value v: v is
      returned at the first tested iteration if it passes the test against
      itself, and otherwise the budget runs out. */
  lemma {:induction false} RunFixed(step: Step, eps: real, maxSteps: nat, i: nat, v: real)
    requires 2 <= i && StepDefined(step) && FixedAt(step, v)
    ensures Run(step, eps, maxSteps, i, v)
      == if i <= maxSteps && Gate < maxSteps && Converged(v, v, eps) then Ok(v) else Err(FailedToConverge)
    decreases maxSteps + 1 - i
  {
    if i <= maxSteps {
      assert step(i, v) == Ok(v);
      if !(i > Gate && Converged(v, v, eps)) {
        RunFixed(step, eps, maxSteps, i + 1, v);
      }
    }
  }

  /** A step with a fixed value v yields v at iteration 6, the first iteration
      tested, unless the budget is within the gate or v does not pass the test
      against itself (eps <= 0 with a non-zero value). */
  lemma IterateFixed(step: Step, eps: real, maxSteps: nat, v: real)
    requires StepDefined(step) && FixedAt(step, v)
    ensures Iterate(step, eps, maxSteps)
      == if maxSteps > Gate && (eps > 0.0 || v == 0.0) then Ok(v) else Err(FailedToConverge)
  {
    assert Converged(v, v, eps) <==> (eps > 0.0 || v == 0.0) by {
      if v != 0.0 {
        assert Abs(v) > 0.0;
        assert eps * Abs(v) > 0.0 <==> eps > 0.0;
      }
    }
    if maxSteps >= 1 {
      RunFixed(step, eps, maxSteps, 2, v);
    }
  }

  /** The gate: with a budget of at most five iterations the loop never
      returns a value, and with a step that does not panic it reports
      "failed to converge". */
  lemma IterateGate(step: Step, eps: real, maxSteps: nat)
    requires StepDefined(step)
    requires maxSteps <= Gate
    ensures Iterate(step, eps, maxSteps).Err?
    ensures NoPanic(step) ==> Iterate(step, eps, maxSteps) == Err(FailedToConverge)
  {
    IterateOkIffConverged(step, eps, maxSteps);
    if NoPanic(step) {
      IterateExhausted(step, eps, maxSteps);
    }
  }

  // ---------------------------------------------------------------------
  // `trapezoid`: the loop with the trapezoid step
  // ---------------------------------------------------------------------

  /** The trapezoid step on [a, b]. */
  function Stepper(f: Integrand, a: real, b: real): (step: Step)
    requires a <= b && DefinedOn(f, a, b)
    ensures StepDefined(step)
    ensures forall i: nat, v: real :: 1 <= i ==> step(i, v) == Refine(f, a, b, i, v)
  {
    (i: nat, prev: real) requires 1 <= i && a <= b && DefinedOn(f, a, b) => Refine(f, a, b, i, prev)
  }

  /** What `trapezoid(f, a, b, eps, max_steps)` returns. */
  function Integrate(f: Integrand, a: real, b: real, eps: real, maxSteps: nat): Result<real>
    requires a <= b && DefinedOn(f, a, b)
  {
    Iterate(Stepper(f, a, b), eps, maxSteps)
  }

  method Trapezoid(f: Integrand, a: real, b: real, eps: real, maxSteps: nat) returns (r: Result<real>)
    requires a <= b
    requires DefinedOn(f, a, b)
    ensures r == Integrate(f, a, b, eps, maxSteps)
  {
    ghost var step := Stepper(f, a, b);
    var oldVal := 0.0;
    var val := 0.0;
    var converged := false;
    for i := 1 to maxSteps + 1
      invariant oldVal == val
      invariant Run(step, eps, maxSteps, i, val) == Iterate(step, eps, maxSteps)
    {
      var next := Iteration(f, a, b, i, val);
      assert step(i, val) == next;
      RunStep(step, eps, maxSteps, i, val);
      if next.IsFailure() {
        return next.PropagateFailure();
      }
      val := next.value;
      if i > Gate && Converged(oldVal, val, eps) {
        converged := true;
        break;
      }
      oldVal := val;
    }
    if converged {
      r := Ok(val);
    } else {
      r := Err(FailedToConverge);
    }
  }

  /** The body of iteration i of the loop, before the convergence test. */
  method Iteration(f: Integrand, a: real, b: real, i: nat, val: real) returns (r: Result<real>)
    requires 1 <= i && a <= b
    requires DefinedOn(f, a, b)
    ensures r == Refine(f, a, b, i, val)
  {
    if i == 1 {
      var fa := f(a);
      if fa.IsFailure() {
        return fa.PropagateFailure();
      }
      var fb := f(b);
      if fb.IsFailure() {
        return fb.PropagateFailure();
      }
      r := Ok(TwoPoint(a, b, fa.value, fb.value));
    } else {
      var numPoints := Pow2(i - 2);
      var sum := MidPointSum(f, a, b, numPoints);
      if sum.IsFailure() {
        return sum.PropagateFailure();
      }
      r := Ok(Refined(val, b - a, sum.value, numPoints));
    }
  }

  /** The midpoint sum of one refinement, evaluated left to right. */
  method MidPointSum(f: Integrand, a: real, b: real, numPoints: nat) returns (r: Result<real>)
    requires a <= b && numPoints >= 1
    requires DefinedOn(f, a, b)
    ensures r == SumAt(f, MidPoints(a, b, numPoints))
  {
    ghost var pts := MidPoints(a, b, numPoints);
    var sum := 0.0;
    for j := 0 to numPoints
      invariant SumAt(f, pts[..j]) == Ok(sum)
    {
      assert pts[j] == PanelMiddle(a, b, numPoints, j);
      var y := f(PanelMiddle(a, b, numPoints, j));
      SumAtStep(f, pts, j);
      if y.IsFailure() {
        SumAtErrPersists(f, pts, j + 1);
        return y.PropagateFailure();
      }
      sum := sum + y.value;
    }
    assert pts[..numPoints] == pts;
    r := Ok(sum);
  }

  /** One more term of the sum, evaluated after the terms before it. */
  lemma SumAtStep(f: Integrand, pts: seq<real>, j: nat)
    requires forall k :: 0 <= k < |pts| ==> f.requires(pts[k])
    requires j < |pts|
    ensures SumAt(f, pts[..j]).Err? ==> SumAt(f, pts[..j + 1]) == SumAt(f, pts[..j])
    ensures SumAt(f, pts[..j]).Ok? && f(pts[j]).Err? ==> SumAt(f, pts[..j + 1]) == Err(f(pts[j]).error)
    ensures SumAt(f, pts[..j]).Ok? && f(pts[j]).Ok? ==>
      SumAt(f, pts[..j + 1]) == Ok(SumAt(f, pts[..j]).value + f(pts[j]).value)
  {
    assert pts[..j + 1][..j] == pts[..j];
  }

  /** Once a prefix of the midpoint sum has panicked, the whole sum carries that panic. */
  lemma {:induction false} SumAtErrPersists(f: Integrand, pts: seq<real>, j: nat)
    requires forall k :: 0 <= k < |pts| ==> f.requires(pts[k])
    requires j <= |pts|
    requires SumAt(f, pts[..j]).Err?
    ensures SumAt(f, pts) == SumAt(f, pts[..j])
    decreases |pts|
  {
    if j == |pts| {
      assert pts[..j] == pts;
    } else {
      var init := pts[..|pts| - 1];
      assert init[..j] == pts[..j];
      SumAtErrPersists(f, init, j);
    }
  }

  /** Iteration i >= 2 when its midpoint sum exists. */
  lemma RefineMid(f: Integrand, a: real, b: real, i: nat, prev: real, s: real)
    requires 2 <= i && a <= b && DefinedOn(f, a, b)
    requires SumAt(f, MidPoints(a, b, Pow2(i - 2))).Ok?
    requires SumAt(f, MidPoints(a, b, Pow2(i - 2))).value == s
    ensures Refine(f, a, b, i, prev).Ok?
    ensures Refine(f, a, b, i, prev).value == Refined(prev, b - a, s, Pow2(i - 2))
  {
  }

  // ---------------------------------------------------------------------
  // What `trapezoid` promises
  // ---------------------------------------------------------------------

  /** `trapezoid` returns `Ok(val)` exactly when some iteration after the gate
      and within the budget passed the test against the previous estimate,
      and `val` is then the estimate of the first such iteration. */
  lemma IntegrateOkIffConverged(f: Integrand, a: real, b: real, eps: real, maxSteps: nat)
    requires a <= b && DefinedOn(f, a, b)
    ensures Integrate(f, a, b, eps, maxSteps).Ok?
      <==> exists k :: FirstConvergence(Stepper(f, a, b), eps, maxSteps, k)
    ensures forall k :: FirstConvergence(Stepper(f, a, b), eps, maxSteps, k) ==>
      Integrate(f, a, b, eps, maxSteps) == Estimate(Stepper(f, a, b), k)
  {
    IterateOkIffConverged(Stepper(f, a, b), eps, maxSteps);
  }

  lemma {:induction false} SumAtOk(f: Integrand, a: real, b: real, pts: seq<real>)
    requires a <= b && DefinedOn(f, a, b) && NoPanicOn(f, a, b)
    requires forall k :: 0 <= k < |pts| ==> a <= pts[k] <= b
    ensures SumAt(f, pts).Ok?
    decreases |pts|
  {
    if pts != [] {
      SumAtOk(f, a, b, pts[..|pts| - 1]);
    }
  }

  /** An integrand that never panics on [a, b] gives a step that never panics. */
  lemma StepperNoPanic(f: Integrand, a: real, b: real)
    requires a <= b && DefinedOn(f, a, b) && NoPanicOn(f, a, b)
    ensures NoPanic(Stepper(f, a, b))
  {
    forall i: nat, v: real | 2 <= i
      ensures Refine(f, a, b, i, v).Ok?
    {
      SumAtOk(f, a, b, MidPoints(a, b, Pow2(i - 2)));
    }
  }

  /** With an integrand that never panics, `trapezoid` fails exactly when no
      iteration between the gate and the budget converged, and then the failure
      is "failed to converge". */
  lemma IntegrateExhausted(f: Integrand, a: real, b: real, eps: real, maxSteps: nat)
    requires a <= b && DefinedOn(f, a, b) && NoPanicOn(f, a, b)
    ensures Integrate(f, a, b, eps, maxSteps).Ok? || Integrate(f, a, b, eps, maxSteps) == Err(FailedToConverge)
    ensures Integrate(f, a, b, eps, maxSteps) == Err(FailedToConverge)
      <==> forall k :: Gate < k <= maxSteps ==> !ConvergesAt(Stepper(f, a, b), eps, k)
  {
    StepperNoPanic(f, a, b);
    IterateExhausted(Stepper(f, a, b), eps, maxSteps);
  }

  /** The gate: with a budget of at most five iterations `trapezoid` never
      returns a value, and with an integrand that does not panic it reports
      "failed to converge". */
  lemma TrapezoidGate(f: Integrand, a: real, b: real, eps: real, maxSteps: nat)
    requires a <= b && DefinedOn(f, a, b)
    requires maxSteps <= Gate
    ensures Integrate(f, a, b, eps, maxSteps).Err?
    ensures NoPanicOn(f, a, b) ==> Integrate(f, a, b, eps, maxSteps) == Err(FailedToConverge)
  {
    IterateGate(Stepper(f, a, b), eps, maxSteps);
    if NoPanicOn(f, a, b) {
      StepperNoPanic(f, a, b);
    }
  }

  /** The integrand raises `e` at some point of [a, b]. */
  ghost predicate RaisedOn(f: Integrand, a: real, b: real, e: Error)
    requires DefinedOn(f, a, b)
  {
    exists x :: a <= x <= b && f(x) == Err(e)
  }

  lemma {:induction false} SumAtErrors(f: Integrand, a: real, b: real, pts: seq<real>)
    requires a <= b && DefinedOn(f, a, b)
    requires forall k :: 0 <= k < |pts| ==> a <= pts[k] <= b
    ensures SumAt(f, pts).Err? ==> RaisedOn(f, a, b, SumAt(f, pts).error)
    decreases |pts|
  {
    if pts != [] {
      var init := pts[..|pts| - 1];
      SumAtErrors(f, a, b, init);
      if SumAt(f, init).Ok? && SumAt(f, pts).Err? {
        var x := pts[|pts| - 1];
        assert f(x).Err? && f(x) == Err(SumAt(f, pts).error);
      }
    }
  }

  /** A failing trapezoid step passes on a panic of the integrand at a point of [a, b]. */
  lemma RefineErrors(f: Integrand, a: real, b: real, i: nat, v: real)
    requires 1 <= i && a <= b && DefinedOn(f, a, b)
    ensures Refine(f, a, b, i, v).Err? ==> RaisedOn(f, a, b, Refine(f, a, b, i, v).error)
  {
    var e := Refine(f, a, b, i, v);
    if e.Err? {
      if i == 1 {
        if f(a).Err? {
          assert f(a) == Err(e.error);
        } else {
          assert f(b) == Err(e.error);
        }
      } else {
        SumAtErrors(f, a, b, MidPoints(a, b, Pow2(i - 2)));
      }
    }
  }

  /** `trapezoid` fails only by not converging, or by passing on a panic that
      the integrand raised at a point of [a, b]. */
  lemma IntegrateErrors(f: Integrand, a: real, b: real, eps: real, maxSteps: nat)
    requires a <= b && DefinedOn(f, a, b)
    ensures Integrate(f, a, b, eps, maxSteps).Err? ==>
      Integrate(f, a, b, eps, maxSteps).error == FailedToConverge
      || RaisedOn(f, a, b, Integrate(f, a, b, eps, maxSteps).error)
  {
    var step := Stepper(f, a, b);
    IterateErrors(step, eps, maxSteps);
    var r := Integrate(f, a, b, eps, maxSteps);
    if r.Err? && r.error != FailedToConverge {
      var i: nat, v: real :| 1 <= i && step(i, v) == Err(r.error);
      RefineErrors(f, a, b, i, v);
    }
  }

  // ---------------------------------------------------------------------
  // Constant integrands are integrated exactly
  // ---------------------------------------------------------------------

  lemma {:induction false} SumAtConstant(f: Integrand, a: real, b: real, c: real, pts: seq<real>)
    requires a <= b && DefinedOn(f, a, b)
    requires ConstantOn(f, a, b, c)
    requires forall k :: 0 <= k < |pts| ==> a <= pts[k] <= b
    ensures SumAt(f, pts).Ok? && SumAt(f, pts).value == (|pts| as real) * c
    decreases |pts|
  {
    if pts != [] {
      SumAtConstant(f, a, b, c, pts[..|pts| - 1]);
    }
  }

  /** The n midpoint values of a constant integrand c sum to n c. */
  lemma MidSumConstant(f: Integrand, a: real, b: real, c: real, n: nat)
    requires 1 <= n && a <= b && DefinedOn(f, a, b)
    requires ConstantOn(f, a, b, c)
    ensures SumAt(f, MidPoints(a, b, n)).Ok?
    ensures SumAt(f, MidPoints(a, b, n)).value == (n as real) * c
  {
    var pts := MidPoints(a, b, n);
    SumAtConstant(f, a, b, c, pts);
    assert |pts| == n;
  }

  /** n midpoint values summing to n c leave the estimate c w unchanged. */
  lemma RefinedConstant(c: real, w: real, n: nat)
    requires n >= 1
    ensures Refined(c * w, w, (n as real) * c, n) == c * w
  {
    var nr := n as real;
    assert w * (nr * c) == nr * (c * w);
    assert nr * (c * w) / nr == c * w;
  }

  /** For a constant integrand c, every iteration i >= 2 keeps the estimate c (b - a). */
  lemma RefineConstant(f: Integrand, a: real, b: real, c: real, i: nat)
    requires 2 <= i && a <= b && DefinedOn(f, a, b)
    requires ConstantOn(f, a, b, c)
    ensures Refine(f, a, b, i, c * (b - a)) == Ok(c * (b - a))
  {
    var n := Pow2(i - 2);
    var v := c * (b - a);
    RefinedConstant(c, b - a, n);
    assert Refined(v, b - a, (n as real) * c, n) == v;
    MidSumConstant(f, a, b, c, n);
    RefineMid(f, a, b, i, v, (n as real) * c);
    OkValue(Refine(f, a, b, i, v), v);
  }

  /** A successful result holding v is Ok(v). */
  lemma OkValue(r: Result<real>, v: real)
    requires r.Ok? && r.value == v
    ensures r == Ok(v)
  {
  }

  /** The two-point trapezoid of a constant integrand c is c (b - a). */
  lemma FirstRefineConstant(f: Integrand, a: real, b: real, c: real)
    requires a <= b && DefinedOn(f, a, b)
    requires ConstantOn(f, a, b, c)
    ensures Refine(f, a, b, 1, 0.0) == Ok(c * (b - a))
  {
    assert f(a).Ok? && f(a).value == c;
    assert f(b).Ok? && f(b).value == c;
    assert TwoPoint(a, b, c, c) == c * (b - a);
  }

  /** For a constant integrand c every trapezoid estimate is c (b - a). */
  lemma StepperConstant(f: Integrand, a: real, b: real, c: real)
    requires a <= b && DefinedOn(f, a, b)
    requires ConstantOn(f, a, b, c)
    ensures FixedAt(Stepper(f, a, b), c * (b - a))
  {
    var step := Stepper(f, a, b);
    var v := c * (b - a);
    FirstRefineConstant(f, a, b, c);
    forall i: nat | 2 <= i
      ensures step(i, v) == Ok(v)
    {
      RefineConstant(f, a, b, c, i);
    }
  }

  /** A constant integrand c on [a, b] yields c (b - a) at iteration 6, the first
      iteration tested, unless the budget is within the gate or the tolerance
      admits no relative agreement at all (eps <= 0 with a non-zero value). */
  lemma ConstantExact(f: Integrand, a: real, b: real, eps: real, maxSteps: nat, c: real)
    requires a <= b && DefinedOn(f, a, b)
    requires ConstantOn(f, a, b, c)
    ensures Integrate(f, a, b, eps, maxSteps)
      == if maxSteps > Gate && (eps > 0.0 || c * (b - a) == 0.0) then Ok(c * (b - a)) else Err(FailedToConverge)
  {
    StepperConstant(f, a, b, c);
    IterateFixed(Stepper(f, a, b), eps, maxSteps, c * (b - a));
  }

  /** The unit test of the source: the constant 1 on [2, 21] integrates to 19. */
  lemma TrapezoidOfOne(f: Integrand)
    requires forall x :: f.requires(x) && f(x) == Ok(1.0)
    ensures Integrate(f, 2.0, 21.0, 0.0000000000001, 10000) == Ok(19.0)
  {
    assert ConstantOn(f, 2.0, 21.0, 1.0);
    ConstantExact(f, 2.0, 21.0, 0.0000000000001, 10000, 1.0);
  }
}
