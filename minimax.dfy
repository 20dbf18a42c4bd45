/** The two-stage design search of minimax/src/main.rs.

    A two-stage single-arm design (n1, n2, r1, r) treats n1 patients, stops
    for futility unless more than r1 respond, then treats n2 more and
    declares the treatment active when more than r of all n1 + n2 respond.
    Its size is the probability of that declaration under the null response
    rate p0, its power the same probability under the alternative p1, and its
    expected sample size is n1 + n2 times the probability of going on to the
    second stage as the source computes it.

    For each given (alpha, beta, p0, p1) the search walks n = 1..100, then
    n1 = 1..n-1, r1 = 0..n1, r = r1..r1+n2 (with n2 = n - n1), and keeps the
    first design whose power is at least 1 - beta and whose size is below
    alpha.

    The binomial coefficient, `powf` and the log-gamma series of this file are
    opaque: they are the fields of a `MathLib`, whose `logGamma` stands for this
    file's own six-coefficient series.
 */
module Minimax {
  import opened SpecialFunctions

  /** The largest total sample size searched. */
  const MaxSample: nat := 100

  datatype GivenParam = GivenParam(alpha: real, beta: real, p0: real, p1: real)

  /** The two parameter sets the search is run for. */
  const Given: seq<GivenParam> := [GivenParam(0.05, 0.1, 0.1, 0.3), GivenParam(0.1, 0.1, 0.2, 0.4)]

  /** An `f64` field that is either still the `NaN` placeholder or a number. */
  datatype Float = NaN | Num(value: real)

  datatype OptimalParam = OptimalParam(n1: nat, n2: nat, r1: nat, r: nat, size: Float, power: Float, expectation: Float)

  /** The entry a search that finds nothing leaves in place. */
  const Unfound: OptimalParam := OptimalParam(0, 0, 0, 0, NaN, NaN, NaN)

  /** The integer part of a design. */
  datatype Design = Design(n1: nat, n2: nat, r1: nat, r: nat)

  function Min(x: nat, y: nat): nat {
    if x <= y then x else y
  }

  // ---------------------------------------------------------------------
  // Binomial probabilities
  // ---------------------------------------------------------------------

  /** `nchoosek(n, y) * p^y * (1 - p)^(n - y)`; the `usize` differences
      `n - y` inside and outside `nchoosek` need y <= n. */
  function BinomTerm(m: MathLib, n: nat, y: nat, p: real): real
    requires y <= n
  {
    NChooseK(m, n, y) as real * m.powf(p, y as real) * m.powf(1.0 - p, (n - y) as real)
  }

  /** Outcome (y1, y2) of the two stages leads to declaring the treatment
      active: more than r1 responses in stage 1 and more than r in all. */
  predicate Rejects(d: Design, y1: nat, y2: nat) {
    d.r1 < y1 && d.r < y1 + y2
  }

  /** The probability of outcome (y1, y2). */
  function Cell(m: MathLib, d: Design, p: real, y1: nat, y2: nat): real
    requires y1 <= d.n1 && y2 <= d.n2
  {
    BinomTerm(m, d.n1, y1, p) * BinomTerm(m, d.n2, y2, p)
  }

  /** Cells (y1, 0), ..., (y1, k - 1) that reject, added up. */
  function RowRegion(m: MathLib, d: Design, p: real, y1: nat, k: nat): real
    requires y1 <= d.n1 && k <= d.n2 + 1
  {
    if k == 0 then 0.0
    else RowRegion(m, d, p, y1, k - 1) + (if Rejects(d, y1, k - 1) then Cell(m, d, p, y1, k - 1) else 0.0)
  }

  /** The rejecting cells of rows 0, ..., k - 1, added up. */
  function Region(m: MathLib, d: Design, p: real, k: nat): real
    requires k <= d.n1 + 1
  {
    if k == 0 then 0.0 else Region(m, d, p, k - 1) + RowRegion(m, d, p, k - 1, d.n2 + 1)
  }

  /** The probability at response rate p that the design declares the
      treatment active: the sum over the whole grid [0, n1] x [0, n2] of the
      cells that reject. */
  function RejectProb(m: MathLib, d: Design, p: real): real {
    Region(m, d, p, d.n1 + 1)
  }

  /** Stage-1 binomial terms for y1 = lo, ..., hi - 1. */
  function StageOneMass(m: MathLib, n1: nat, p: real, lo: nat, hi: nat): real
    requires hi <= n1 + 1
    decreases hi
  {
    if hi <= lo then 0.0 else StageOneMass(m, n1, p, lo, hi - 1) + BinomTerm(m, n1, hi - 1, p)
  }

  /** The expected sample size the source reports: n1, plus n2 times the
      stage-1 probability of r1 < y1 <= min(r, n1). */
  function ExpectedSize(m: MathLib, d: Design, p: real): real {
    d.n1 as real + d.n2 as real * StageOneMass(m, d.n1, p, d.r1 + 1, Min(d.r, d.n1) + 1)
  }

  // ---------------------------------------------------------------------
  // `size`, `power` and `expectation`
  // ---------------------------------------------------------------------

  /** No cell of a row left of column k rejects when y1 + k <= r + 1. */
  lemma {:induction false} RowPrefixZero(m: MathLib, d: Design, p: real, y1: nat, k: nat)
    requires y1 <= d.n1 && k <= d.n2 + 1 && (k == 0 || y1 + k <= d.r + 1)
    ensures RowRegion(m, d, p, y1, k) == 0.0
    decreases k
  {
    if k > 0 {
      RowPrefixZero(m, d, p, y1, k - 1);
    }
  }

  /** Rows y1 <= r1 never reject. */
  lemma {:induction false} LowRowsZero(m: MathLib, d: Design, p: real, k: nat)
    requires k <= d.n1 + 1 && k <= d.r1 + 1
    ensures Region(m, d, p, k) == 0.0
    decreases k
  {
    if k > 0 {
      LowRowsZero(m, d, p, k - 1);
      RowNeverRejects(m, d, p, k - 1, d.n2 + 1);
    }
  }

  lemma {:induction false} RowNeverRejects(m: MathLib, d: Design, p: real, y1: nat, k: nat)
    requires y1 <= d.n1 && k <= d.n2 + 1 && y1 <= d.r1
    ensures RowRegion(m, d, p, y1, k) == 0.0
    decreases k
  {
    if k > 0 {
      RowNeverRejects(m, d, p, y1, k - 1);
    }
  }

  /** The six-factor product of the source is the probability of the cell. */
  lemma CellProduct(m: MathLib, d: Design, p: real, y1: nat, y2: nat)
    requires y1 <= d.n1 && y2 <= d.n2
    ensures Cell(m, d, p, y1, y2)
      == NChooseK(m, d.n1, y1) as real * m.powf(p, y1 as real) * m.powf(1.0 - p, (d.n1 - y1) as real)
         * NChooseK(m, d.n2, y2) as real * m.powf(p, y2 as real) * m.powf(1.0 - p, (d.n2 - y2) as real)
  {
    var a, b, c := NChooseK(m, d.n1, y1) as real, m.powf(p, y1 as real), m.powf(1.0 - p, (d.n1 - y1) as real);
    var x, y, z := NChooseK(m, d.n2, y2) as real, m.powf(p, y2 as real), m.powf(1.0 - p, (d.n2 - y2) as real);
    assert a * b * c * x * y * z == (a * b * c) * (x * y * z);
  }

  /** Column k of a row y1 > r1 with y1 + k > r rejects and adds its cell. */
  lemma RowStep(m: MathLib, d: Design, p: real, y1: nat, k: nat)
    requires d.r1 < y1 <= d.n1 && k <= d.n2 && d.r < y1 + k
    ensures RowRegion(m, d, p, y1, k + 1) == RowRegion(m, d, p, y1, k) + Cell(m, d, p, y1, k)
  {
  }

  /** Clamp a column index of the source's `i32` range into 0..n2+1. */
  function Column(y2: int, n2: nat): nat {
    if y2 < 0 then 0 else if y2 > n2 + 1 then n2 + 1 else y2
  }

  /** The inner loop of `size` and `power` for row y1 > r1: y2 over the `i32`
      range r-y1+1..=n2, negative values skipped, adds the row's rejecting cells. */
  method AddRow(m: MathLib, d: Design, p: real, y1: nat, acc: real) returns (result: real)
    requires d.r1 < y1 <= d.n1
    ensures result == acc + RowRegion(m, d, p, y1, d.n2 + 1)
  {
    result := acc;
    var y2: int := d.r as int - y1 as int + 1;
    ghost var lo := y2;
    RowPrefixZero(m, d, p, y1, Column(lo, d.n2));
    while y2 <= d.n2 as int
      invariant lo <= y2
      invariant y2 <= d.n2 + 1 || y2 == lo
      invariant result == acc + RowRegion(m, d, p, y1, Column(y2, d.n2))
    {
      if y2 >= 0 {
        var k: nat := y2;
        var cell := NChooseK(m, d.n1, y1) as real * m.powf(p, y1 as real)
                    * m.powf(1.0 - p, (d.n1 - y1) as real)
                    * NChooseK(m, d.n2, k) as real * m.powf(p, k as real)
                    * m.powf(1.0 - p, (d.n2 - k) as real);
        CellProduct(m, d, p, y1, k);
        RowStep(m, d, p, y1, k);
        result := result + cell;
      } else {
        assert Column(y2 + 1, d.n2) == 0;
      }
      y2 := y2 + 1;
    }
    assert Column(y2, d.n2) == d.n2 + 1;
  }

  /** The double loop of `size` and `power` at response rate p: y1 over
      r1+1..=n1, each row by `AddRow`. */
  method RejectionSum(m: MathLib, d: Design, p: real) returns (result: real)
    ensures result == RejectProb(m, d, p)
  {
    result := 0.0;
    var y1 := d.r1 + 1;
    LowRowsZero(m, d, p, Min(y1, d.n1 + 1));
    while y1 <= d.n1
      invariant d.r1 + 1 <= y1
      invariant y1 <= d.n1 + 1 || y1 == d.r1 + 1
      invariant result == Region(m, d, p, Min(y1, d.n1 + 1))
    {
      result := AddRow(m, d, p, y1, result);
      y1 := y1 + 1;
    }
  }

  /** `OptimalParam::size`: the rejection probability under p0. */
  method Size(m: MathLib, d: Design, g: GivenParam) returns (result: real)
    ensures result == RejectProb(m, d, g.p0)
  {
    result := RejectionSum(m, d, g.p0);
  }

  /** `OptimalParam::power`: the same double sum under p1. */
  method Power(m: MathLib, d: Design, g: GivenParam) returns (result: real)
    ensures result == RejectProb(m, d, g.p1)
  {
    result := RejectionSum(m, d, g.p1);
  }

  /** n1 plus n2 times the stage-1 mass is the expected sample size. */
  lemma ExpectedSizeOf(m: MathLib, d: Design, p: real, f: real, e: real)
    requires f == StageOneMass(m, d.n1, p, d.r1 + 1, Min(d.r, d.n1) + 1)
    requires e == d.n1 as real + d.n2 as real * f
    ensures e == ExpectedSize(m, d, p)
  {
    var mass := StageOneMass(m, d.n1, p, d.r1 + 1, Min(d.r, d.n1) + 1);
    assert ExpectedSize(m, d, p) == d.n1 as real + d.n2 as real * mass;
  }

  /** `OptimalParam::expectation`: y1 runs over r1+1..=r and the `y1 <= n1`
      guard cuts the range at n1. */
  method Expectation(m: MathLib, d: Design, g: GivenParam) returns (e: real)
    ensures e == ExpectedSize(m, d, g.p0)
  {
    var factor := 0.0;
    var y1 := d.r1 + 1;
    ghost var hi := Min(d.r, d.n1) + 1;
    while y1 <= d.r
      invariant d.r1 + 1 <= y1 && (y1 <= d.r + 1 || y1 == d.r1 + 1)
      invariant factor == StageOneMass(m, d.n1, g.p0, d.r1 + 1, Min(y1, hi))
    {
      if y1 <= d.n1 {
        var term := NChooseK(m, d.n1, y1) as real * m.powf(g.p0, y1 as real)
                    * m.powf(1.0 - g.p0, (d.n1 - y1) as real);
        assert term == BinomTerm(m, d.n1, y1, g.p0);
        factor := factor + term;
      }
      y1 := y1 + 1;
    }
    e := d.n1 as real + d.n2 as real * factor;
    ExpectedSizeOf(m, d, g.p0, factor, e);
  }

  // ---------------------------------------------------------------------
  // What the sums promise
  // ---------------------------------------------------------------------

  /** Every binomial term of the file's opaque primitives is a probability weight. */
  ghost predicate TermsNonNegative(m: MathLib, p: real) {
    forall n: nat, y: nat :: y <= n ==> BinomTerm(m, n, y, p) >= 0.0
  }

  lemma {:induction false} RowRegionMonotone(m: MathLib, d: Design, e: Design, p: real, y1: nat, k: nat)
    requires TermsNonNegative(m, p)
    requires e == d.(r := e.r) && d.r <= e.r
    requires y1 <= d.n1 && k <= d.n2 + 1
    ensures 0.0 <= RowRegion(m, e, p, y1, k) <= RowRegion(m, d, p, y1, k)
    decreases k
  {
    if k > 0 {
      RowRegionMonotone(m, d, e, p, y1, k - 1);
      assert Cell(m, d, p, y1, k - 1) == Cell(m, e, p, y1, k - 1) >= 0.0 by {
        assert BinomTerm(m, d.n1, y1, p) >= 0.0 && BinomTerm(m, d.n2, k - 1, p) >= 0.0;
      }
    }
  }

  lemma {:induction false} RegionMonotone(m: MathLib, d: Design, e: Design, p: real, k: nat)
    requires TermsNonNegative(m, p)
    requires e == d.(r := e.r) && d.r <= e.r
    requires k <= d.n1 + 1
    ensures 0.0 <= Region(m, e, p, k) <= Region(m, d, p, k)
    decreases k
  {
    if k > 0 {
      RegionMonotone(m, d, e, p, k - 1);
      RowRegionMonotone(m, d, e, p, k - 1, d.n2 + 1);
    }
  }

  /** With non-negative binomial terms, raising the final threshold r shrinks
      the rejection region, so both size and power can only fall (and stay
      non-negative). */
  lemma RejectProbMonotoneInR(m: MathLib, d: Design, r': nat, p: real)
    requires TermsNonNegative(m, p) && d.r <= r'
    ensures 0.0 <= RejectProb(m, d.(r := r'), p) <= RejectProb(m, d, p)
  {
    RegionMonotone(m, d, d.(r := r'), p, d.n1 + 1);
  }

  lemma {:induction false} StageOneMassBounds(m: MathLib, n1: nat, p: real, lo: nat, hi: nat)
    requires TermsNonNegative(m, p) && hi <= n1 + 1
    ensures 0.0 <= StageOneMass(m, n1, p, lo, hi) <= StageOneMass(m, n1, p, 0, hi)
    decreases hi
  {
    if hi > 0 {
      StageOneMassBounds(m, n1, p, lo, hi - 1);
      assert BinomTerm(m, n1, hi - 1, p) >= 0.0;
    }
  }

  /** When the stage-1 terms are non-negative and add up to at most one, the
      expected sample size lies between n1 and n1 + n2. */
  lemma ExpectedSizeBounds(m: MathLib, d: Design, p: real)
    requires TermsNonNegative(m, p)
    requires StageOneMass(m, d.n1, p, 0, d.n1 + 1) <= 1.0
    ensures d.n1 as real <= ExpectedSize(m, d, p) <= (d.n1 + d.n2) as real
  {
    var hi := Min(d.r, d.n1) + 1;
    StageOneFraction(m, d.n1, p, d.r1 + 1, hi);
    ScaledFraction(ExpectedSize(m, d, p), d.n1, d.n2, StageOneMass(m, d.n1, p, d.r1 + 1, hi));
  }

  /** Any stretch of stage-1 terms is a fraction of a total mass of at most one. */
  lemma StageOneFraction(m: MathLib, n1: nat, p: real, lo: nat, hi: nat)
    requires TermsNonNegative(m, p) && hi <= n1 + 1
    requires StageOneMass(m, n1, p, 0, n1 + 1) <= 1.0
    ensures 0.0 <= StageOneMass(m, n1, p, lo, hi) <= 1.0
  {
    StageOneMassBounds(m, n1, p, lo, hi);
    StageOneMassBounds(m, n1, p, hi, n1 + 1);
    StageOneSplit(m, n1, p, hi, n1 + 1);
  }

  /** e = n1 + n2 f with f a fraction lies between n1 and n1 + n2. */
  lemma ScaledFraction(e: real, n1: nat, n2: nat, f: real)
    requires 0.0 <= f <= 1.0 && e == n1 as real + n2 as real * f
    ensures n1 as real <= e <= (n1 + n2) as real
  {
    assert n2 as real * f <= n2 as real * 1.0;
  }

  /** A range starting at 0 splits at any point. */
  lemma {:induction false} StageOneSplit(m: MathLib, n1: nat, p: real, mid: nat, hi: nat)
    requires mid <= hi <= n1 + 1
    ensures StageOneMass(m, n1, p, 0, hi) == StageOneMass(m, n1, p, 0, mid) + StageOneMass(m, n1, p, mid, hi)
    decreases hi
  {
    if hi > mid {
      StageOneSplit(m, n1, p, mid, hi - 1);
    }
  }

  // ---------------------------------------------------------------------
  // The search
  // ---------------------------------------------------------------------

  /** The designs the nested loops enumerate: n1 >= 1, n2 >= 1, n1 + n2 <= 100,
      r1 <= n1 and r1 <= r <= r1 + n2. */
  predicate InSpace(d: Design) {
    1 <= d.n1 && 1 <= d.n2 && d.n1 + d.n2 <= MaxSample && d.r1 <= d.n1 && d.r1 <= d.r <= d.r1 + d.n2
  }

  /** d comes before position (n, n1, r1, r) in the lexicographic search order. */
  predicate Precedes(d: Design, n: nat, n1: nat, r1: nat, r: nat) {
    d.n1 + d.n2 < n
    || (d.n1 + d.n2 == n && (d.n1 < n1 || (d.n1 == n1 && (d.r1 < r1 || (d.r1 == r1 && d.r < r)))))
  }

  /** Power at least 1 - beta and size below alpha. */
  predicate Accepted(m: MathLib, g: GivenParam, d: Design) {
    RejectProb(m, d, g.p1) >= 1.0 - g.beta && RejectProb(m, d, g.p0) < g.alpha
  }

  /** No design of the search space before position (n, n1, r1, r) is accepted. */
  ghost predicate NoneBefore(m: MathLib, g: GivenParam, n: nat, n1: nat, r1: nat, r: nat) {
    forall e :: InSpace(e) && Precedes(e, n, n1, r1, r) ==> !Accepted(m, g, e)
  }

  /** d is the first accepted design in search order. */
  ghost predicate FirstAccepted(m: MathLib, g: GivenParam, d: Design) {
    InSpace(d) && Accepted(m, g, d) && NoneBefore(m, g, d.n1 + d.n2, d.n1, d.r1, d.r)
  }

  /** No design of the search space is accepted. */
  ghost predicate NoneAccepted(m: MathLib, g: GivenParam) {
    forall e :: InSpace(e) ==> !Accepted(m, g, e)
  }

  /** The entry stored for an accepted design. */
  function Recorded(m: MathLib, g: GivenParam, d: Design): OptimalParam {
    OptimalParam(d.n1, d.n2, d.r1, d.r, Num(RejectProb(m, d, g.p0)), Num(RejectProb(m, d, g.p1)),
                 Num(ExpectedSize(m, d, g.p0)))
  }

  /** There is at most one first accepted design. */
  lemma FirstUnique(m: MathLib, g: GivenParam, d1: Design, d2: Design)
    requires FirstAccepted(m, g, d1) && FirstAccepted(m, g, d2)
    ensures d1 == d2
  {
    PrecedesTotal(d1, d2);
  }

  /** Two different designs are ordered one way or the other. */
  lemma PrecedesTotal(d1: Design, d2: Design)
    ensures d1 == d2 || Precedes(d1, d2.n1 + d2.n2, d2.n1, d2.r1, d2.r) || Precedes(d2, d1.n1 + d1.n2, d1.n1, d1.r1, d1.r)
  {
  }

  /** Either nothing is accepted or some design is the first accepted one. */
  lemma FirstExists(m: MathLib, g: GivenParam)
    ensures NoneAccepted(m, g) || exists d :: FirstAccepted(m, g, d)
  {
    if !NoneAccepted(m, g) {
      var d :| InSpace(d) && Accepted(m, g, d);
      FirstBelow(m, g, d, Rank(d));
    }
  }

  /** The position of d in the search order, as a number. */
  function Rank(d: Design): nat {
    ((d.n1 + d.n2) * 101 + d.n1) * 10201 + d.r1 * 101 + d.r
  }

  lemma RankOrder(e: Design, d: Design)
    requires InSpace(e) && InSpace(d) && Precedes(e, d.n1 + d.n2, d.n1, d.r1, d.r)
    ensures Rank(e) < Rank(d)
  {
    var ne, nd := e.n1 + e.n2, d.n1 + d.n2;
    if ne < nd {
      assert (ne * 101 + e.n1) + 1 <= nd * 101 + d.n1;
      assert (ne * 101 + e.n1) * 10201 + 10201 <= (nd * 101 + d.n1) * 10201;
    } else if e.n1 < d.n1 {
      assert (ne * 101 + e.n1) * 10201 + 10201 <= (nd * 101 + d.n1) * 10201;
    }
  }

  /** An accepted design of rank at most k has a first accepted design. */
  lemma {:induction false} FirstBelow(m: MathLib, g: GivenParam, d: Design, k: nat)
    requires InSpace(d) && Accepted(m, g, d) && Rank(d) <= k
    ensures exists f :: FirstAccepted(m, g, f)
    decreases k
  {
    if NoneBefore(m, g, d.n1 + d.n2, d.n1, d.r1, d.r) {
      assert FirstAccepted(m, g, d);
    } else {
      var e :| InSpace(e) && Precedes(e, d.n1 + d.n2, d.n1, d.r1, d.r) && Accepted(m, g, e);
      RankOrder(e, d);
      FirstBelow(m, g, e, Rank(e));
    }
  }

  /** The search begins: no design has a total below 1. */
  lemma SearchStarts(m: MathLib, g: GivenParam)
    ensures NoneBefore(m, g, 1, 0, 0, 0)
  {
  }

  /** n1 starts at 1: no design of the space has n1 = 0. */
  lemma FirstSplit(m: MathLib, g: GivenParam, n: nat)
    requires NoneBefore(m, g, n, 0, 0, 0)
    ensures NoneBefore(m, g, n, 1, 0, 0)
  {
  }

  /** r starts at r1: no design of the space has r < r1. */
  lemma FirstThreshold(m: MathLib, g: GivenParam, n: nat, n1: nat, r1: nat)
    requires NoneBefore(m, g, n, n1, r1, 0)
    ensures NoneBefore(m, g, n, n1, r1, r1)
  {
  }

  /** A rejected candidate moves the frontier one threshold on. */
  lemma NextThreshold(m: MathLib, g: GivenParam, n: nat, n1: nat, r1: nat, r: nat)
    requires n1 < n && NoneBefore(m, g, n, n1, r1, r)
    requires !Accepted(m, g, Design(n1, n - n1, r1, r))
    ensures NoneBefore(m, g, n, n1, r1, r + 1)
  {
  }

  /** After r = r1 + n2 comes the next r1. */
  lemma ThresholdsDone(m: MathLib, g: GivenParam, n: nat, n1: nat, r1: nat)
    requires n1 < n && NoneBefore(m, g, n, n1, r1, r1 + (n - n1) + 1)
    ensures NoneBefore(m, g, n, n1, r1 + 1, 0)
  {
  }

  /** After r1 = n1 comes the next n1. */
  lemma StageOneDone(m: MathLib, g: GivenParam, n: nat, n1: nat)
    requires NoneBefore(m, g, n, n1, n1 + 1, 0)
    ensures NoneBefore(m, g, n, n1 + 1, 0, 0)
  {
  }

  /** After n1 = n - 1 comes the next total n. */
  lemma SplitsDone(m: MathLib, g: GivenParam, n: nat)
    requires NoneBefore(m, g, n, n, 0, 0)
    ensures NoneBefore(m, g, n + 1, 0, 0, 0)
  {
  }

  /** Past n = 100 the whole space has been searched. */
  lemma SpaceDone(m: MathLib, g: GivenParam)
    requires NoneBefore(m, g, MaxSample + 1, 0, 0, 0)
    ensures NoneAccepted(m, g)
  {
  }

  /** The search for one parameter set (lines 38-74): the labelled loop nest
      over (n, n1, r1, r) that stops at the first accepted design. */
  method SearchDesign(m: MathLib, g: GivenParam) returns (found: bool, d: Design, best: OptimalParam)
    ensures found ==> FirstAccepted(m, g, d) && best == Recorded(m, g, d)
    ensures !found ==> NoneAccepted(m, g) && best == Unfound
  {
    found, d, best := false, Design(0, 0, 0, 0), Unfound;
    SearchStarts(m, g);
    var n := 1;
    label search:
    while n <= MaxSample
      invariant 1 <= n <= MaxSample + 1
      invariant !found && best == Unfound
      invariant NoneBefore(m, g, n, 0, 0, 0)
    {
      FirstSplit(m, g, n);
      var n1 := 1;
      while n1 <= n - 1
        invariant 1 <= n1 <= n
        invariant NoneBefore(m, g, n, n1, 0, 0)
        invariant !found && best == Unfound
      {
        var n2 := n - n1;
        var r1 := 0;
        while r1 <= n1
          invariant r1 <= n1 + 1
          invariant NoneBefore(m, g, n, n1, r1, 0)
          invariant !found && best == Unfound
        {
          FirstThreshold(m, g, n, n1, r1);
          var r := r1;
          while r <= r1 + n2
            invariant r1 <= r <= r1 + n2 + 1
            invariant NoneBefore(m, g, n, n1, r1, r)
            invariant !found && best == Unfound
          {
            var cand := Design(n1, n2, r1, r);
            var size := Size(m, cand, g);
            var power := Power(m, cand, g);
            if power >= 1.0 - g.beta && size < g.alpha {
              var expectation := Expectation(m, cand, g);
              best := OptimalParam(n1, n2, r1, r, Num(size), Num(power), Num(expectation));
              d, found := cand, true;
            }
            if found {
              break search;
            }
            NextThreshold(m, g, n, n1, r1, r);
            r := r + 1;
          }
          ThresholdsDone(m, g, n, n1, r1);
          r1 := r1 + 1;
        }
        StageOneDone(m, g, n, n1);
        n1 := n1 + 1;
      }
      SplitsDone(m, g, n);
      n := n + 1;
    }
    if !found {
      SpaceDone(m, g);
    }
  }

  /** The search is complete: an entry is stored when, and only when, some
      design of the search space meets both constraints, and it is the first
      such design in search order. */
  ghost predicate Outcome(m: MathLib, g: GivenParam, rec: OptimalParam) {
    (NoneAccepted(m, g) && rec == Unfound)
    || (exists d :: FirstAccepted(m, g, d) && rec == Recorded(m, g, d))
  }

  /** What `SearchDesign` returns settles the entry: `best` when found, the
      placeholder otherwise. */
  lemma SearchOutcome(m: MathLib, g: GivenParam, found: bool, d: Design, best: OptimalParam)
    requires found ==> FirstAccepted(m, g, d) && best == Recorded(m, g, d)
    requires !found ==> NoneAccepted(m, g) && best == Unfound
    ensures Outcome(m, g, best)
  {
  }

  /** The loop over the parameter sets (lines 17-75): `optimal_params[i]`
      starts as the NaN entry and is overwritten by the first accepted design. */
  method SearchAll(m: MathLib, given: seq<GivenParam>) returns (optimal: array<OptimalParam>)
    ensures fresh(optimal) && optimal.Length == |given|
    ensures forall i :: 0 <= i < |given| ==> Outcome(m, given[i], optimal[i])
  {
    optimal := new OptimalParam[|given|](_ => Unfound);
    for i := 0 to |given|
      invariant forall j :: 0 <= j < i ==> Outcome(m, given[j], optimal[j])
      invariant forall j :: i <= j < |given| ==> optimal[j] == Unfound
    {
      var found, d, best := SearchDesign(m, given[i]);
      SearchOutcome(m, given[i], found, d, best);
      if found {
        optimal[i] := best;
      }
    }
  }

  /** The whole program (lines 2-75): the search for each of the two parameter
      sets, into the table that starts out as placeholders. */
  method OptimalDesigns(m: MathLib) returns (optimal: array<OptimalParam>)
    ensures fresh(optimal) && optimal.Length == |Given| == 2
    ensures forall i :: 0 <= i < |Given| ==> Outcome(m, Given[i], optimal[i])
  {
    optimal := SearchAll(m, Given);
  }
}
