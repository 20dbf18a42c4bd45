# STAT535 core, modelled in Dafny

This project models the exact, non-floating-point structure of three programs
of the STAT535 repository.

- **bayes_predict** (`quadrature.dfy`, `probability_engine.dfy`,
  `special_functions.dfy`, `outcomes.dfy`) covers three things:
  - the adaptive trapezoid integrator, which refines by interval doubling, waits
    out five iterations before it tests for convergence, and fails with
    "failed to converge" when it runs out of steps;
  - the posterior probability `post_prob`, a nested integral whose non-converged
    inner or outer integral aborts through `expect`;
  - the predictive probability `pred_prob`, which enumerates the grid of future
    outcomes and adds the beta-binomial weights of the grid points whose
    recomputed probability reaches the target.

  `trapezoid` and the accumulation loop of `pred_prob` are methods with loops.
  Each is proved equal to a specification function, and the properties are
  proved about those functions. `ln`, `exp`, `powf`, `round` and the
  log-gamma series are opaque: they are fields of a `MathLib` value.
- **P1** (`dose_escalation.dfy`) is the 3+3 dose-escalation simulation. It works
  on the flat `data` array through `idx`. The random DLT count of each cohort is
  replaced by a supplied sequence of counts (0..3) per scenario and replication.
  - Every replication ends with exactly one MTD flag.
  - The level stays in 0..5 and every index is in bounds.
  - The three "impossible" panics are unreachable.
  - The walk terminates after at most ten cohorts.
  - The six-patient branch `2 | 3 | 4 | 5 | 6 => level -= 1` is unreachable:
    the loop only ever reaches a level holding six patients with at most one
    DLT there. The model writes that branch as `assert false`.
- **minimax** (`minimax.dfy`) models three parts:
  - the double sums `size` and `power` and the single sum `expectation`, as
    loops proved equal to sums over exactly the index sets the source
    enumerates;
  - the labelled search over (n, n1, r1, r), proved to store the first accepted
    design in lexicographic order, or to leave the NaN placeholder when no
    design is accepted;
  - the `k <= n` precondition of `nchoosek`.

## Model

| member | source | states |
|---|---|---|
| Outcomes.Expect | bayes_predict/src/main.rs:182-185 | `expect` passes `Ok` through and turns a convergence failure into a panic carrying its message; an existing panic propagates unchanged |
| SpecialFunctions.AsU64 | bayes_predict/src/main.rs:137-141 | the `as u64` cast of a rounded float is exact in range, gives 0 for every negative value and 2^64-1 for every value above it |
| SpecialFunctions.Beta | bayes_predict/src/main.rs:128-130 | `beta` is positive for positive shapes, given a positive `exp` |
| SpecialFunctions.NChooseK | bayes_predict/src/main.rs:137-141 | `nchoosek` is callable only with k <= n (the unsigned `n - k`) and returns a u64 value |
| SpecialFunctions.BetaBinDens | bayes_predict/src/main.rs:158-160 | the beta-binomial weight needs x <= n and positive shapes, and is never negative |
| Quadrature.Pow2 | bayes_predict/src/main.rs:50 | `2^(i-2)` is at least one, so `h` is well defined |
| Quadrature.PanelMiddleInside | bayes_predict/src/main.rs:51-56 | each midpoint `a + (j + 0.5) h` lies in [a, b], and strictly inside when a < b |
| Quadrature.MidPoints | bayes_predict/src/main.rs:50-56 | iteration i >= 2 evaluates exactly 2^(i-2) points, all in [a, b] and strictly inside (a, b) when a < b |
| Quadrature.RunStep | bayes_predict/src/main.rs:46-66 | one loop pass: a panic aborts, convergence after the gate returns the new value, otherwise the loop goes on from it |
| Quadrature.EstimateErrPersists | bayes_predict/src/main.rs:47-58 | once an iterate aborts, every later iterate aborts the same way |
| Quadrature.RunFrom | bayes_predict/src/main.rs:46-70 | from any loop state, the result is `Ok` exactly when a first converging iteration k exists, and it is then the k-th iterate |
| Quadrature.FirstExists | bayes_predict/src/main.rs:60-64 | any converging iteration after the gate implies a first one |
| Quadrature.IterateOkIffConverged | bayes_predict/src/main.rs:60-70 | the loop returns `Ok` if and only if some iteration i > 5 converges, and the value is the iterate of the first such i |
| Quadrature.RunNoPanic | bayes_predict/src/main.rs:46-70 | without integrand panics, every loop state ends in `Ok` or "failed to converge" |
| Quadrature.IterateExhausted | bayes_predict/src/main.rs:60-70 | without integrand panics, the result is "failed to converge" exactly when no iteration in 6..max_steps converges |
| Quadrature.RunErrors | bayes_predict/src/main.rs:46-70 | every error from a loop state is a convergence failure or an error the integrand raised |
| Quadrature.IterateErrors | bayes_predict/src/main.rs:46-70 | every error of the loop is a convergence failure or an error the integrand raised |
| Quadrature.EstimateFixed | bayes_predict/src/main.rs:47-58 | an iteration that reproduces v from v and starts at v yields v at every step |
| Quadrature.RunFixed | bayes_predict/src/main.rs:46-70 | on a fixed point the loop returns it once the gate is passed, if max_steps allows and the test can succeed |
| Quadrature.IterateFixed | bayes_predict/src/main.rs:46-70 | on a fixed point v the result is `Ok(v)` exactly when max_steps > 5 and (eps > 0 or v == 0) |
| Quadrature.IterateGate | bayes_predict/src/main.rs:46-70 | with max_steps <= 5 the loop never returns `Ok`; without panics it returns "failed to converge" |
| Quadrature.Stepper | bayes_predict/src/main.rs:47-58 | the iteration function of a well-defined integrand is defined at every step and equals the refinement rule |
| Quadrature.Trapezoid | bayes_predict/src/main.rs:35-71 | the loop with its `break` returns exactly the specification `Integrate` |
| Quadrature.Iteration | bayes_predict/src/main.rs:47-58 | one iterate: the two-point rule at i = 1, and the average of the old value and (b - a) times the midpoint mean afterwards |
| Quadrature.MidPointSum | bayes_predict/src/main.rs:50-58 | the summing loop over j adds f at the midpoints in order and stops at the first panic |
| Quadrature.SumAtStep | bayes_predict/src/main.rs:55-57 | adding one midpoint extends the sum, or keeps or raises the first panic |
| Quadrature.SumAtErrPersists | bayes_predict/src/main.rs:55-57 | a panic in a prefix of the midpoints is the panic of the whole sum |
| Quadrature.RefineMid | bayes_predict/src/main.rs:49-58 | a successful midpoint sum s gives the refined value `0.5 (val + (b - a) s / n)` |
| Quadrature.IntegrateOkIffConverged | bayes_predict/src/main.rs:60-70 | `trapezoid` returns `Ok` if and only if some iteration i > 5 converges, with the first such iterate as value |
| Quadrature.SumAtOk | bayes_predict/src/main.rs:55-57 | points inside [a, b] of a non-panicking integrand sum without error |
| Quadrature.StepperNoPanic | bayes_predict/src/main.rs:47-58 | an integrand that does not panic on [a, b] never makes an iterate fail |
| Quadrature.IntegrateExhausted | bayes_predict/src/main.rs:46-70 | exhausting max_steps gives "failed to converge", never an unconverged value, and only then |
| Quadrature.TrapezoidGate | bayes_predict/src/main.rs:46-70 | with max_steps <= 5, `trapezoid` always fails, with "failed to converge" when the integrand does not panic |
| Quadrature.SumAtErrors | bayes_predict/src/main.rs:55-57 | an error of the midpoint sum is one the integrand raises inside [a, b] |
| Quadrature.RefineErrors | bayes_predict/src/main.rs:47-58 | an error of an iterate is one the integrand raises inside [a, b] |
| Quadrature.IntegrateErrors | bayes_predict/src/main.rs:46-70 | an error of `trapezoid` is a convergence failure or a panic the integrand raises inside [a, b] |
| Quadrature.SumAtConstant | bayes_predict/src/main.rs:55-57 | a constant c summed at k points inside [a, b] gives k c |
| Quadrature.MidSumConstant | bayes_predict/src/main.rs:50-57 | the midpoint sum of a constant c over n points is n c |
| Quadrature.RefinedConstant | bayes_predict/src/main.rs:52-58 | the refinement rule keeps c (b - a) fixed when every midpoint value is c |
| Quadrature.RefineConstant | bayes_predict/src/main.rs:49-58 | for a constant integrand every iterate from the second on maps c (b - a) to itself |
| Quadrature.FirstRefineConstant | bayes_predict/src/main.rs:48 | the first iterate of a constant c is c (b - a) |
| Quadrature.StepperConstant | bayes_predict/src/main.rs:47-58 | c (b - a) is a fixed point of the iteration of a constant integrand |
| Quadrature.ConstantExact | bayes_predict/src/main.rs:46-70 | a constant integrand c gives `Ok(c (b - a))` exactly when max_steps > 5 and the test can succeed, else "failed to converge" |
| Quadrature.TrapezoidOfOne | bayes_predict/src/main.rs:75-76 | f = 1 on [2, 21] with eps 1e-13 and 10000 steps returns exactly `Ok(19)` |
| ProbabilityEngine.Remaining | bayes_predict/src/main.rs:195-196 | the unsigned `N - n` of each arm is the number of patients still to come; n <= N is a precondition (see the ProbabilityEngine.PredProb line under Left out) |
| ProbabilityEngine.FutureShapesPositive | bayes_predict/src/main.rs:197-201 | the recomputed shapes (alpha + y + x, beta + N - y - x) are positive for x <= N - n, so `log_gamma`'s assertion holds |
| ProbabilityEngine.PostInner | bayes_predict/src/main.rs:170-176 | the inner integrand of `post_prob` is defined and never fails |
| ProbabilityEngine.PostInnerIntegral | bayes_predict/src/main.rs:182-183 | for every outer point p1 >= delta the inner interval [0, p1 - delta] is well formed and the integral only ever fails to converge |
| ProbabilityEngine.PostOuter | bayes_predict/src/main.rs:177-184 | the outer integrand is defined on every point of [delta, 1] |
| ProbabilityEngine.PostProb | bayes_predict/src/main.rs:162-186 | with 0 < delta < 1, `post_prob` either returns a value or panics, never a bare convergence failure |
| ProbabilityEngine.PostProbFailures | bayes_predict/src/main.rs:182-185 | its only panics are the inner and outer `expect` messages; an outer failure gives the outer one, and the inner one needs a failing inner integral at some p1 in [delta, 1] |
| ProbabilityEngine.PredInner | bayes_predict/src/main.rs:197-199 | the inner integrand of `pred_prob` is defined and never fails |
| ProbabilityEngine.PredOuter | bayes_predict/src/main.rs:200-206 | the outer integrand is defined at every p2 <= 1, so the inner interval [p2, 1] is well formed |
| ProbabilityEngine.PairProb | bayes_predict/src/main.rs:207-208 | the recomputed probability of a grid point fails only with the inner or outer `expect` message |
| ProbabilityEngine.PairProbFailures | bayes_predict/src/main.rs:204-208 | the outer integral over [0, 1] fails only to converge or with the inner panic |
| ProbabilityEngine.Weight | bayes_predict/src/main.rs:210-220 | each beta-binomial weight is called with x <= N - n and is non-negative |
| ProbabilityEngine.Weights | bayes_predict/src/main.rs:210-220 | one weight per x in 0..=N - n, all non-negative |
| ProbabilityEngine.Probs | bayes_predict/src/main.rs:195-208 | a recomputed probability is defined at every point of [0, N1 - n1] x [0, N2 - n2] |
| ProbabilityEngine.PredProb | bayes_predict/src/main.rs:187-225 | `pred_prob` returns exactly the specification sum `PredSpec` over the grid |
| ProbabilityEngine.Accumulate | bayes_predict/src/main.rs:194-224 | the nested x1/x2 loops visit each grid point once, in order, and return the guarded sum of weight products |
| ProbabilityEngine.RowSumStep | bayes_predict/src/main.rs:209-221 | one grid point adds w1[x1] w2[x2] when its probability reaches the target and nothing otherwise |
| ProbabilityEngine.GridSumStep | bayes_predict/src/main.rs:195-223 | one more x1 runs the whole x2 row from the sum so far |
| ProbabilityEngine.RowErrPersists | bayes_predict/src/main.rs:204-208 | a panic within a row is the panic of the rest of the row |
| ProbabilityEngine.GridErrPersists | bayes_predict/src/main.rs:204-208 | a panic in an earlier row is the panic of the whole grid |
| ProbabilityEngine.RowMonotone | bayes_predict/src/main.rs:209-221 | with non-negative weights, a lower target gives a row sum at least as large, with the same failures |
| ProbabilityEngine.GridMonotone | bayes_predict/src/main.rs:209-221 | with non-negative weights, a lower target gives a grid sum at least as large, with the same failures |
| ProbabilityEngine.RowErrors | bayes_predict/src/main.rs:204-208 | a row fails only with the failure of one of its points |
| ProbabilityEngine.GridErrors | bayes_predict/src/main.rs:204-208 | the grid fails only with the failure of one of its points |
| ProbabilityEngine.RowAll | bayes_predict/src/main.rs:209-221 | when every point of a row passes, the row adds all its products |
| ProbabilityEngine.GridAll | bayes_predict/src/main.rs:209-221 | when every point passes, the sum is the sum of all products |
| ProbabilityEngine.RowTotalFactor | bayes_predict/src/main.rs:210-220 | a full row of products is w1[x1] times the total of w2 |
| ProbabilityEngine.GridTotalFactor | bayes_predict/src/main.rs:210-220 | the sum of all products is the product of the two weight totals |
| ProbabilityEngine.GridAllWhole | bayes_predict/src/main.rs:209-221 | when every point passes, `pred_prob` is the product of the two arms' weight totals |
| ProbabilityEngine.RowNone | bayes_predict/src/main.rs:209 | a row where no point reaches the target adds nothing |
| ProbabilityEngine.GridNone | bayes_predict/src/main.rs:209 | when no point reaches the target the sum is 0 |
| ProbabilityEngine.PredMonotone | bayes_predict/src/main.rs:209-221 | `pred_prob` is non-increasing in the target, and fails for one target exactly when it fails for the other |
| ProbabilityEngine.PredFailures | bayes_predict/src/main.rs:204-208 | `pred_prob` fails only with the inner or outer `expect` panic |
| DoseEscalation.IdxInBounds | P1/src/main.rs:16-21 | `idx` of an in-range (scenario, replication, level, property) is below the length of `data` |
| DoseEscalation.Strides | P1/src/main.rs:4-10 | the strides `idx` multiplies by (lines 16-21) are the block sizes: SCENARIO_SIZE = REPLICATIONS * REPLICATION_SIZE, REPLICATION_SIZE = LEVELS * LEVEL_SIZE, LEVEL_SIZE = PROPERTIES, and `data` holds SCENARIOS * REPLICATIONS * LEVELS * PROPERTIES entries |
| DoseEscalation.CellOfIdx | P1/src/main.rs:16-21 | decoding an index gives back its four coordinates |
| DoseEscalation.IdxOfCell | P1/src/main.rs:16-21 | every position of `data` is the index of exactly one in-range cell |
| DoseEscalation.IdxInjective | P1/src/main.rs:16-21 | `idx` is injective on the in-range coordinates |
| DoseEscalation.SlicesDisjoint | P1/src/main.rs:16-21 | the slices of two replications never share a position |
| DoseEscalation.WithField | P1/src/main.rs:41 | writing one property of a level changes that property only |
| DoseEscalation.TableFrame | P1/src/main.rs:36-37 | a replication's table depends only on its own slice of `data` |
| DoseEscalation.CohortSumBound | P1/src/main.rs:22-30 | k cohorts of three contribute at most 3k DLTs |
| DoseEscalation.MtdUnique | P1/src/main.rs:40-43 | a table carries at most one MTD level |
| DoseEscalation.ConcludedDlts | P1/src/main.rs:22-30 | a finished replication never records more DLTs than patients, and uses at most ten cohorts |
| DoseEscalation.TreatedTotals | P1/src/main.rs:46-48 | a cohort adds three patients and its DLTs to the totals |
| DoseEscalation.DeclaredTotals | P1/src/main.rs:75 | setting an MTD flag leaves patient and DLT totals unchanged |
| DoseEscalation.LevelZeroDeclared | P1/src/main.rs:40-43 | reaching level 0 declares level 0 the MTD, and the replication is then finished |
| DoseEscalation.FirstCohort | P1/src/main.rs:45-61 | after the first cohort, the loop invariant holds at the level the first-cohort rule `FirstMove` gives (0 DLTs escalates below the top level, 1 stays, 2-3 de-escalate) |
| DoseEscalation.SecondCohort | P1/src/main.rs:62-83 | after the second cohort with a total other than 2, the loop invariant holds at the level `SecondMove` gives (0-1 escalates when level < 5 and the next level has fewer than 2 DLTs, otherwise stays; 3 or more de-escalate) |
| DoseEscalation.SecondCohortDeclares | P1/src/main.rs:74-77 | a total of exactly 2 DLTs declares level - 1 the MTD, and the replication is finished |
| DoseEscalation.SixPatientsDeclare | P1/src/main.rs:84-91 | at six patients, level 5 or a next level with more than one DLT declares the current level the MTD |
| DoseEscalation.SixPatientsEscalate | P1/src/main.rs:91-93 | otherwise at six patients the walk escalates and the invariant holds |
| DoseEscalation.RoomForCohort | P1/src/main.rs:39-102 | while running, another cohort never takes the total past thirty patients |
| DoseEscalation.FinishedConcluded | P1/src/main.rs:39-102 | a finished table with drawn cohorts accounted for is a concluded replication |
| DoseEscalation.Store | P1/src/main.rs:41 | writing `data[idx(...)]` updates that one field of the table and nothing outside the replication's slice |
| DoseEscalation.TreatCohort | P1/src/main.rs:46-48 | the two writes for a cohort add its DLTs and three patients at the level |
| DoseEscalation.DeclareMtd | P1/src/main.rs:89 | setting the MTD flag of a level changes only that flag |
| DoseEscalation.TableOfMirror | P1/src/main.rs:36-37 | the ghost table mirrors the replication's slice of `data` |
| DoseEscalation.FirstCohortArm | P1/src/main.rs:45-61 | the `0 =>` arm: records the cohort, and the next level is exactly: level + 1 for 0 DLTs below level 5, level for 0 DLTs at level 5 or for 1 DLT, level - 1 for 2 or 3; the invariant holds there; the "impossible DLT size" panic is unreachable |
| DoseEscalation.SecondCohortArm | P1/src/main.rs:62-83 | the `3 =>` arm: records the cohort; it stops exactly when the six patients show 2 DLTs, declaring level - 1; otherwise the next level is exactly `SecondMove` (0-1 DLTs: level + 1 if level < 5 and the next level has fewer than 2 DLTs, else level; 3 or more: level - 1); totals 5 and 6, listed in the source, cannot occur (at most 1 + 3), and the panic is unreachable |
| DoseEscalation.SixPatientsArm | P1/src/main.rs:84-99 | the `6 =>` arm: stops exactly when level is 5 or the next level has more than one DLT, declaring the current level, and otherwise climbs one level with the table unchanged; the de-escalating branch and the panic are unreachable |
| DoseEscalation.Advance | P1/src/main.rs:40-101 | one loop pass, per case: at level 0 it declares 0 and stops without drawing; with 0 patients it draws the next cohort, records it and moves by `FirstMove`; with 3 it draws, records, and stops declaring level - 1 exactly on 2 total DLTs, else moves by `SecondMove`; with 6 it draws nothing and declares the level or climbs; the invariant is kept and the "impossible patient size" panic is unreachable |
| DoseEscalation.MirroredConcluded | P1/src/main.rs:39-102 | a finished, mirrored table makes the replication's slice concluded |
| DoseEscalation.RunReplication | P1/src/main.rs:38-102 | the escalation loop terminates and leaves exactly one MTD flag, a well-formed table, at most ten cohorts and the DLTs of the cohorts drawn; nothing outside the slice changes |
| DoseEscalation.ReplicationDone | P1/src/main.rs:37-102 | after one replication, every replication up to it is concluded and the rest of `data` is still zero |
| DoseEscalation.SliceZero | P1/src/main.rs:31 | the untouched slice of the next replication is all zero |
| DoseEscalation.NothingDoneYet | P1/src/main.rs:31 | the zeroed `data` array is where the simulation starts |
| DoseEscalation.AllDone | P1/src/main.rs:36-104 | progress past the end of `data` means every replication is concluded |
| DoseEscalation.RunScenario | P1/src/main.rs:37-103 | the loop over 10000 replications concludes every replication of the scenario |
| DoseEscalation.RunAll | P1/src/main.rs:36-104 | the loop over the four scenarios concludes every replication |
| DoseEscalation.Simulate | P1/src/main.rs:31-104 | from a zeroed array, every one of the 4 x 10000 replications ends concluded |
| Minimax.RowPrefixZero | minimax/src/main.rs:107-108 | columns y2 with y1 + y2 <= r, negative ones included, contribute nothing |
| Minimax.LowRowsZero | minimax/src/main.rs:106 | rows y1 <= r1 contribute nothing |
| Minimax.RowNeverRejects | minimax/src/main.rs:106 | a row y1 <= r1 has no rejecting cell |
| Minimax.CellProduct | minimax/src/main.rs:110-115 | the six-factor product is the probability of cell (y1, y2) |
| Minimax.RowStep | minimax/src/main.rs:107-116 | a column with y1 + y2 > r adds its cell to the row |
| Minimax.AddRow | minimax/src/main.rs:107-117 | the `i32` inner loop over r - y1 + 1..=n2, skipping negative y2, adds exactly the row's rejecting cells |
| Minimax.RejectionSum | minimax/src/main.rs:106-119 | the double loop sums the cells with r1 < y1 <= n1, 0 <= y2 <= n2 and y1 + y2 > r, and no others |
| Minimax.Size | minimax/src/main.rs:99-120 | `size` is that sum at p0 |
| Minimax.Power | minimax/src/main.rs:121-142 | `power` is the same sum at p1 |
| Minimax.Expectation | minimax/src/main.rs:143-158 | `expectation` is n1 + n2 times the stage-1 terms for r1 < y1 <= min(r, n1); the `y1 <= n1` guard gives the upper bound |
| Minimax.RowRegionMonotone | minimax/src/main.rs:107-117 | with non-negative terms, raising r shrinks a row's sum, which stays non-negative |
| Minimax.RegionMonotone | minimax/src/main.rs:106-118 | with non-negative terms, raising r shrinks the region's sum, which stays non-negative |
| Minimax.RejectProbMonotoneInR | minimax/src/main.rs:99-142 | with non-negative terms, size and power can only fall as r grows, and stay non-negative |
| Minimax.StageOneMassBounds | minimax/src/main.rs:148-157 | the stage-1 factor is non-negative and at most the full stage-1 mass |
| Minimax.ExpectedSizeBounds | minimax/src/main.rs:143-158 | with stage-1 terms that form a sub-probability, the expected size lies in [n1, n1 + n2] |
| Minimax.StageOneSplit | minimax/src/main.rs:148-157 | the stage-1 sum splits at any point of its range |
| Minimax.StageOneFraction | minimax/src/main.rs:148-157 | with non-negative terms of total at most one, any range of stage-1 terms sums to a value in [0, 1] |
| Minimax.PrecedesTotal | minimax/src/main.rs:39-43 | the loop nest's order is total: two different designs come one before the other |
| Minimax.FirstUnique | minimax/src/main.rs:39-70 | there is at most one first accepted design |
| Minimax.RankOrder | minimax/src/main.rs:39-43 | the search order embeds in the natural numbers |
| Minimax.FirstBelow | minimax/src/main.rs:39-70 | an accepted design implies a first accepted one |
| Minimax.FirstExists | minimax/src/main.rs:39-70 | either no design is accepted or a first accepted design exists |
| Minimax.SearchStarts | minimax/src/main.rs:39 | no design of the space comes before n = 1 |
| Minimax.FirstSplit | minimax/src/main.rs:40 | no design of the space has n1 = 0, so the n1 loop may start at 1 |
| Minimax.FirstThreshold | minimax/src/main.rs:43 | no design of the space has r < r1, so the r loop may start at r1 |
| Minimax.NextThreshold | minimax/src/main.rs:58-70 | a candidate that fails the power or size test moves the searched frontier one r on |
| Minimax.ThresholdsDone | minimax/src/main.rs:43 | after r = r1 + n2 no design with this r1 remains |
| Minimax.StageOneDone | minimax/src/main.rs:42 | after r1 = n1 no design with this n1 remains |
| Minimax.SplitsDone | minimax/src/main.rs:40-41 | after n1 = n - 1 no design with this total n remains |
| Minimax.SpaceDone | minimax/src/main.rs:39 | once n passes 100, no design of the space was accepted |
| Minimax.SearchDesign | minimax/src/main.rs:38-74 | the labelled loop over n <= 100, n1 in 1..n-1, r1 in 0..=n1, r in r1..=r1 + n2 stops at the first design with power >= 1 - beta and size < alpha and records it with its expectation; it finds none only when none exists |
| Minimax.SearchOutcome | minimax/src/main.rs:65-66 | the result of one search settles the entry: the recorded first design, or the placeholder when none is accepted |
| Minimax.SearchAll | minimax/src/main.rs:17-75 | each `optimal_params[i]` holds the first accepted design for its parameters, or the NaN placeholder when there is none |
| Minimax.OptimalDesigns | minimax/src/main.rs:2-75 | the search over the program's two parameter sets (alpha 0.05, beta 0.1, p0 0.1, p1 0.3 and alpha 0.1, beta 0.1, p0 0.2, p1 0.4) fills a two-entry table, each entry the first accepted design or the placeholder |

## Left out

- The log-gamma series (bayes_predict/src/main.rs:98-126, minimax/src/main.rs:161-180), `ln`, `exp`, `powf` and `round` are opaque `MathLib` fields. Their only assumed property is that `exp` is positive, written as the predicate `MathLib.Valid`.
- Floating-point rounding, NaN and infinities are not modelled; numbers are exact reals. So the cosine, exponential and nested integrals of the integrator's tests are not modelled, and `TrapezoidOfOne` holds exactly rather than to 1e-5.
- Quadrature.Trapezoid: `2_u64.pow(i - 2)` overflows from i = 66 on. It panics in a debug build and wraps in a release build. The model uses unbounded integers, so it captures neither. Reaching it needs 2^63 integrand evaluations first.
- Quadrature.Trapezoid: `assert!(b >= a)` is a precondition, not a modelled panic. Every call site in the core is proved to meet it.
- SpecialFunctions.NChooseK: the tests' values `nchoosek(20, 4) = 4845` and `nchoosek(9, 3) = 84` depend on the opaque series and are not proved. Only the `k <= n` precondition and the u64 range are stated. minimax's `usize` version is modelled by the same function, assuming a 64-bit `usize`.
- The randomness of P1 (`thread_rng`, `test_cohort`) becomes an input: one sequence of cohort DLT counts, each at most 3, per scenario and replication. The per-scenario toxicity probabilities therefore play no part.
- The reporting code is not modelled: P1's averages and percentages (P1/src/main.rs:105-131), bayes_predict's tabulating `main`, and minimax's `println!` calls.
- Minimax: the `as i32` casts are exact because every value is at most 100.
- Minimax.RejectProbMonotoneInR, Minimax.ExpectedSizeBounds: hold only under the stated assumptions that the opaque binomial terms are non-negative (and, for the bound, sum to at most one). The source does not guarantee this for `f64`.
- ProbabilityEngine.PostProb: `assert!(0.0 < delta && delta < 1.0)` (bayes_predict/src/main.rs:169) is a precondition, not a modelled panic. A call with delta outside (0, 1) is not modelled.
- ProbabilityEngine.PredProb: n <= N for both arms is a precondition, here and in ProbabilityEngine.Remaining and the trial's `Valid` (bayes_predict/src/main.rs:195-196, 212, 217). With n > N, the u64 `N - n` panics in a debug build and wraps to nearly 2^64 in a release build, and the `0..=` loops then practically never end. Neither outcome is modelled. `main`'s calls (N = 50, n = 25, bayes_predict/src/main.rs:18-24) meet the precondition.
- SpecialFunctions.LogGamma: `assert!(x > 0.0)` (bayes_predict/src/main.rs:99) is a precondition, not a modelled panic. SpecialFunctions.Beta and SpecialFunctions.BetaDens inherit it as positive shapes, and ProbabilityEngine.Admissible requires it of every beta density the engine evaluates. A call with a non-positive shape is not modelled.
- optimal/src/main.rs is not part of this model: its `size`, `power` and `expectation` are unimplemented.
