/**
  The 3+3 dose-escalation simulation of P1 (P1/src/main.rs).

  Every replication walks over dose levels 0..5, starting at level 1, and
  records for each level the number of patients treated, the number of
  dose-limiting toxicities (DLTs) seen and a maximum-tolerated-dose (MTD)
  flag, in one flat array indexed through `Idx`.  The random cohort of the
  source is replaced by the sequence of DLT counts its cohorts produce, in
  the order they are drawn.
*/
module DoseEscalation {

  const Scenarios: nat := 4
  const Replications: nat := 10000
  const Levels: nat := 6
  const Properties: nat := 3
  /** Replications * Levels * Properties, written out (see `Strides`). */
  const ScenarioSize: nat := 180000
  /** Levels * Properties, written out (see `Strides`). */
  const ReplicationSize: nat := 18
  const LevelSize: nat := Properties
  const PatientsProp: nat := 0
  const DltsProp: nat := 1
  const MtdProp: nat := 2
  /** Length of the flat `data` array. */
  const DataSize: nat := Scenarios * ScenarioSize
  /** The highest dose level. */
  const TopLevel: nat := 5
  /** Patients per cohort, and so the largest DLT count of one cohort. */
  const CohortSize: nat := 3
  /** Two cohorts at most at each of the levels 1..5. */
  const MaxCohorts: nat := 10

  // ---------------------------------------------------------------------
  // The flat index
  // ---------------------------------------------------------------------

  /** The flat position of one property of one level of one replication. */
  function Idx(scenario: nat, replication: nat, level: nat, property: nat): nat {
    scenario * ScenarioSize + replication * ReplicationSize + level * LevelSize + property
  }

  predicate InRange(scenario: nat, replication: nat, level: nat, property: nat) {
    scenario < Scenarios && replication < Replications && level < Levels && property < Properties
  }

  /** Every index of a cell in range lies inside `data`. */
  lemma IdxInBounds(scenario: nat, replication: nat, level: nat, property: nat)
    requires InRange(scenario, replication, level, property)
    ensures Idx(scenario, replication, level, property) < DataSize
  {
  }

  /** The strides `Idx` multiplies by are the sizes of the blocks they step
      over: a replication holds Levels * Properties entries, a scenario
      Replications of those. */
  lemma Strides()
    ensures ScenarioSize == Replications * ReplicationSize
    ensures ReplicationSize == Levels * LevelSize && LevelSize == Properties
    ensures DataSize == Scenarios * Replications * Levels * Properties
  {
  }

  datatype Cell = Cell(scenario: nat, replication: nat, level: nat, property: nat)

  /** The cell a flat index belongs to: the inverse of `Idx`. */
  function CellOf(k: nat): Cell {
    var inner := k % ScenarioSize;
    var low := inner % ReplicationSize;
    Cell(k / ScenarioSize, inner / ReplicationSize, low / LevelSize, low % LevelSize)
  }

  /** x = q m + r with 0 <= r < m determines the quotient and the remainder. */
  lemma DivMod(x: nat, q: nat, r: nat, m: nat)
    requires 0 < m && r < m && x == q * m + r
    ensures x / m == q && x % m == r
  {
    var q', r' := x / m, x % m;
    assert q' * m + r' == q * m + r;
    if q' > q {
      MulAtLeast(q' - q, m);
    } else if q' < q {
      MulAtLeast(q - q', m);
    }
  }

  lemma {:induction false} MulAtLeast(d: nat, m: nat)
    requires 1 <= d
    ensures d * m >= m
  {
    if d > 1 {
      MulAtLeast(d - 1, m);
      assert d * m == (d - 1) * m + m;
    }
  }

  /** Decoding the index of a cell gives the cell back. */
  lemma CellOfIdx(scenario: nat, replication: nat, level: nat, property: nat)
    requires InRange(scenario, replication, level, property)
    ensures CellOf(Idx(scenario, replication, level, property)) == Cell(scenario, replication, level, property)
  {
    var k := Idx(scenario, replication, level, property);
    var low := 3 * level + property;
    DivMod(k, scenario, 18 * replication + low, 180000);
    DivMod(18 * replication + low, replication, low, 18);
    DivMod(low, level, property, 3);
  }

  /** Every index of `data` is the index of the cell it decodes to. */
  lemma IdxOfCell(k: nat)
    requires k < DataSize
    ensures InRange(CellOf(k).scenario, CellOf(k).replication, CellOf(k).level, CellOf(k).property)
    ensures Idx(CellOf(k).scenario, CellOf(k).replication, CellOf(k).level, CellOf(k).property) == k
  {
    var c := CellOf(k);
    var inner := k % 180000;
    var low := inner % 18;
    assert k == 180000 * (k / 180000) + inner;
    assert inner == 18 * (inner / 18) + low;
    assert low == 3 * (low / 3) + low % 3;
  }

  /** Two cells in range never share an index. */
  lemma IdxInjective(s1: nat, r1: nat, l1: nat, p1: nat, s2: nat, r2: nat, l2: nat, p2: nat)
    requires InRange(s1, r1, l1, p1) && InRange(s2, r2, l2, p2)
    requires Idx(s1, r1, l1, p1) == Idx(s2, r2, l2, p2)
    ensures s1 == s2 && r1 == r2 && l1 == l2 && p1 == p2
  {
    CellOfIdx(s1, r1, l1, p1);
    CellOfIdx(s2, r2, l2, p2);
  }

  /** The 18 consecutive cells of one replication. */
  predicate InSlice(k: nat, scenario: nat, replication: nat) {
    Idx(scenario, replication, 0, 0) <= k < Idx(scenario, replication, 0, 0) + ReplicationSize
  }

  /** The slices of two different replications are disjoint. */
  lemma SlicesDisjoint(s1: nat, r1: nat, s2: nat, r2: nat, k: nat)
    requires s1 < Scenarios && r1 < Replications && s2 < Scenarios && r2 < Replications
    requires InSlice(k, s1, r1) && InSlice(k, s2, r2)
    ensures s1 == s2 && r1 == r2
  {
  }

  // ---------------------------------------------------------------------
  // The per-level record of one replication
  // ---------------------------------------------------------------------

  datatype LevelRecord = LevelRecord(patients: nat, dlts: nat, mtd: nat)

  function Field(rec: LevelRecord, property: nat): nat
    requires property < Properties
  {
    if property == PatientsProp then rec.patients
    else if property == DltsProp then rec.dlts
    else rec.mtd
  }

  function WithField(rec: LevelRecord, property: nat, v: nat): (res: LevelRecord)
    requires property < Properties
    ensures Field(res, property) == v
    ensures forall q: nat :: q < Properties && q != property ==> Field(res, q) == Field(rec, q)
  {
    if property == PatientsProp then rec.(patients := v)
    else if property == DltsProp then rec.(dlts := v)
    else rec.(mtd := v)
  }

  /** The six level records of replication (scenario, replication) in a snapshot of `data`. */
  function TableOf(d: seq<nat>, scenario: nat, replication: nat): (t: seq<LevelRecord>)
    requires |d| == DataSize && scenario < Scenarios && replication < Replications
    ensures |t| == Levels
  {
    seq(Levels, l requires 0 <= l < Levels =>
      LevelRecord(d[Idx(scenario, replication, l, PatientsProp)],
                  d[Idx(scenario, replication, l, DltsProp)],
                  d[Idx(scenario, replication, l, MtdProp)]))
  }

  /** A table depends only on the slice of its own replication. */
  lemma TableFrame(d1: seq<nat>, d2: seq<nat>, scenario: nat, replication: nat)
    requires |d1| == DataSize && |d2| == DataSize
    requires scenario < Scenarios && replication < Replications
    requires forall k :: 0 <= k < DataSize && InSlice(k, scenario, replication) ==> d1[k] == d2[k]
    ensures TableOf(d1, scenario, replication) == TableOf(d2, scenario, replication)
  {
    var t1 := TableOf(d1, scenario, replication);
    var t2 := TableOf(d2, scenario, replication);
    forall l | 0 <= l < Levels
      ensures t1[l] == t2[l]
    {
      assert InSlice(Idx(scenario, replication, l, PatientsProp), scenario, replication);
      assert InSlice(Idx(scenario, replication, l, DltsProp), scenario, replication);
      assert InSlice(Idx(scenario, replication, l, MtdProp), scenario, replication);
    }
  }

  /** Patients treated at the levels below k. */
  function PatientsBelow(t: seq<LevelRecord>, k: nat): nat
    requires k <= |t|
  {
    if k == 0 then 0 else PatientsBelow(t, k - 1) + t[k - 1].patients
  }

  /** DLTs seen at the levels below k. */
  function DltsBelow(t: seq<LevelRecord>, k: nat): nat
    requires k <= |t|
  {
    if k == 0 then 0 else DltsBelow(t, k - 1) + t[k - 1].dlts
  }

  function PatientTotal(t: seq<LevelRecord>): nat
    requires |t| == Levels
  {
    PatientsBelow(t, Levels)
  }

  function DltTotal(t: seq<LevelRecord>): nat
    requires |t| == Levels
  {
    DltsBelow(t, Levels)
  }

  /** Replacing the record of level i changes the sums below k by the difference. */
  lemma {:induction false} BelowUpdate(t: seq<LevelRecord>, i: nat, rec: LevelRecord, k: nat)
    requires i < |t| && k <= |t|
    ensures PatientsBelow(t[i := rec], k) + (if i < k then t[i].patients else 0)
         == PatientsBelow(t, k) + (if i < k then rec.patients else 0)
    ensures DltsBelow(t[i := rec], k) + (if i < k then t[i].dlts else 0)
         == DltsBelow(t, k) + (if i < k then rec.dlts else 0)
  {
    if k > 0 {
      BelowUpdate(t, i, rec, k - 1);
    }
  }

  /** Nobody treated below k: both sums are zero. */
  lemma {:induction false} BelowEmpty(t: seq<LevelRecord>, k: nat)
    requires k <= |t| && forall l :: 0 <= l < k ==> t[l].patients == 0 && t[l].dlts == 0
    ensures PatientsBelow(t, k) == 0 && DltsBelow(t, k) == 0
  {
    if k > 0 {
      BelowEmpty(t, k - 1);
    }
  }

  /** With at most six patients per level, the levels below k hold at most 6 k. */
  lemma {:induction false} PatientsBelowBound(t: seq<LevelRecord>, k: nat)
    requires k <= |t| && forall l :: 0 <= l < k ==> t[l].patients <= 6
    ensures PatientsBelow(t, k) <= 6 * k
  {
    if k > 0 {
      PatientsBelowBound(t, k - 1);
    }
  }

  /** The DLTs of the first k cohorts drawn. */
  function CohortSum(cohorts: seq<nat>, k: nat): nat
    requires k <= |cohorts|
  {
    if k == 0 then 0 else CohortSum(cohorts, k - 1) + cohorts[k - 1]
  }

  /** Enough cohort outcomes for one replication, each of them 0..3 DLTs. */
  predicate ValidCohorts(cohorts: seq<nat>) {
    MaxCohorts <= |cohorts| && forall k :: 0 <= k < |cohorts| ==> cohorts[k] <= CohortSize
  }

  /** k cohorts of three patients can show at most 3 k DLTs. */
  lemma {:induction false} CohortSumBound(cohorts: seq<nat>, k: nat)
    requires ValidCohorts(cohorts) && k <= |cohorts|
    ensures CohortSum(cohorts, k) <= CohortSize * k
  {
    if k > 0 {
      CohortSumBound(cohorts, k - 1);
    }
  }

  /** Every level holds 0, 3 or 6 patients, never more DLTs than patients, a 0/1
      MTD flag, and level 0 is never given to anyone. */
  predicate WellFormed(t: seq<LevelRecord>) {
    |t| == Levels && t[0].patients == 0
    && forall l :: 0 <= l < |t| ==>
         (t[l].patients == 0 || t[l].patients == 3 || t[l].patients == 6)
         && t[l].dlts <= t[l].patients && t[l].mtd <= 1
  }

  /** Level m carries the one MTD flag of the table. */
  predicate MtdAt(t: seq<LevelRecord>, m: nat) {
    m < |t| && t[m].mtd == 1 && forall l :: 0 <= l < |t| && l != m ==> t[l].mtd == 0
  }

  /** The 3+3 reading of a declared MTD m: every level 1..m was treated with at most
      one DLT, and the level just above m, if any, showed at least two DLTs. */
  predicate Tolerated(t: seq<LevelRecord>, m: nat) {
    m < |t|
    && (forall j :: 1 <= j <= m ==> t[j].patients >= CohortSize && t[j].dlts <= 1)
    && (m + 1 < |t| ==> t[m + 1].dlts >= 2)
  }

  /** What one finished replication leaves in its slice. */
  predicate Concluded(t: seq<LevelRecord>, cohorts: seq<nat>) {
    WellFormed(t)
    && (exists m :: 0 <= m < |t| && MtdAt(t, m) && Tolerated(t, m))
    && PatientTotal(t) <= CohortSize * MaxCohorts
    && PatientTotal(t) % CohortSize == 0
    && PatientTotal(t) / CohortSize <= |cohorts|
    && DltTotal(t) == CohortSum(cohorts, PatientTotal(t) / CohortSize)
  }

  /** A finished replication declares exactly one level. */
  lemma MtdUnique(t: seq<LevelRecord>, m1: nat, m2: nat)
    requires MtdAt(t, m1) && MtdAt(t, m2)
    ensures m1 == m2
  {
  }

  /** The DLTs recorded never exceed three per cohort drawn. */
  lemma ConcludedDlts(t: seq<LevelRecord>, cohorts: seq<nat>)
    requires ValidCohorts(cohorts) && Concluded(t, cohorts)
    ensures DltTotal(t) <= PatientTotal(t)
    ensures PatientTotal(t) / CohortSize <= MaxCohorts
  {
    CohortSumBound(cohorts, PatientTotal(t) / CohortSize);
  }

  // ---------------------------------------------------------------------
  // The escalation rules on one table
  // ---------------------------------------------------------------------

  /** What holds at the head of the escalation loop while no MTD is declared. */
  predicate Running(t: seq<LevelRecord>, level: nat) {
    |t| == Levels && level <= TopLevel && t[0].patients == 0
    && (forall l :: 0 <= l < Levels ==>
          (t[l].patients == 0 || t[l].patients == 3 || t[l].patients == 6)
          && t[l].dlts <= t[l].patients && t[l].mtd == 0)
    // the current level has shown at most one DLT
    && (1 <= level ==> t[level].dlts <= 1)
    // every level below the current one was escalated from
    && (forall j :: 1 <= j < level ==> t[j].patients >= CohortSize && t[j].dlts <= 1)
    // level 0 is only reached by de-escalating from a toxic level 1
    && (level == 0 ==> t[1].dlts >= 2)
    // a level above 1 is only treated after the level below it
    && Staircase(t)
  }

  /** Each of the levels 2..5 holds patients only if the level below holds some. */
  predicate Staircase(t: seq<LevelRecord>)
    requires |t| == Levels
  {
    && (t[2].patients > 0 ==> t[1].patients >= CohortSize)
    && (t[3].patients > 0 ==> t[2].patients >= CohortSize)
    && (t[4].patients > 0 ==> t[3].patients >= CohortSize)
    && (t[5].patients > 0 ==> t[4].patients >= CohortSize)
  }

  /** The table after a cohort of three patients with c DLTs at `level`. */
  function Treated(t: seq<LevelRecord>, level: nat, c: nat): (t': seq<LevelRecord>)
    requires |t| == Levels && level < Levels
    ensures |t'| == Levels
  {
    t[level := LevelRecord(t[level].patients + CohortSize, t[level].dlts + c, t[level].mtd)]
  }

  /** A cohort adds three patients and its DLTs to the totals. */
  lemma TreatedTotals(t: seq<LevelRecord>, level: nat, c: nat)
    requires |t| == Levels && level < Levels
    ensures PatientTotal(Treated(t, level, c)) == PatientTotal(t) + CohortSize
    ensures DltTotal(Treated(t, level, c)) == DltTotal(t) + c
  {
    BelowUpdate(t, level, Treated(t, level, c)[level], Levels);
  }

  /** The table with level m flagged as the MTD. */
  function Declared(t: seq<LevelRecord>, m: nat): (t': seq<LevelRecord>)
    requires |t| == Levels && m < Levels
    ensures |t'| == Levels && t'[m].mtd == 1
  {
    t[m := t[m].(mtd := 1)]
  }

  /** Declaring the MTD leaves the totals alone. */
  lemma DeclaredTotals(t: seq<LevelRecord>, m: nat)
    requires |t| == Levels && m < Levels
    ensures PatientTotal(Declared(t, m)) == PatientTotal(t) && DltTotal(Declared(t, m)) == DltTotal(t)
  {
    BelowUpdate(t, m, Declared(t, m)[m], Levels);
  }

  /** A replication that stopped with level m declared the MTD. */
  predicate Finished(t: seq<LevelRecord>, m: nat) {
    WellFormed(t) && MtdAt(t, m) && Tolerated(t, m)
  }

  /** Reaching level 0 declares it (lines 40-43): no dose was tolerated, since
      level 1 showed at least two DLTs. */
  lemma LevelZeroDeclared(t: seq<LevelRecord>)
    requires Running(t, 0)
    ensures Finished(Declared(t, 0), 0)
  {
    var t' := Declared(t, 0);
    assert forall l :: 0 <= l < Levels && l != 0 ==> t'[l] == t[l];
  }

  /** The first-cohort rule (lines 49-58): no DLT escalates unless the level is
      the top one, one DLT stays, two or three de-escalate. */
  function FirstMove(level: nat, c: nat): nat
    requires 1 <= level
  {
    if c == 0 then (if level < TopLevel then level + 1 else level)
    else if c == 1 then level
    else level - 1
  }

  /** The second-cohort rule (lines 66-80) for d != 2 DLTs among the six
      patients: d <= 1 escalates when the level above has shown fewer than two
      DLTs and stays otherwise, d >= 3 de-escalates. */
  function SecondMove(t: seq<LevelRecord>, level: nat, d: nat): nat
    requires |t| == Levels && 1 <= level <= TopLevel
  {
    if d <= 1 then (if level < TopLevel && t[level + 1].dlts < 2 then level + 1 else level)
    else level - 1
  }

  /** The six-patient rule (lines 86-88): the level is declared when it is the
      top one or the level above has shown more than one DLT. */
  predicate SixDeclares(t: seq<LevelRecord>, level: nat)
    requires |t| == Levels && level <= TopLevel
  {
    level == TopLevel || t[level + 1].dlts > 1
  }

  /** The first cohort at a level (lines 45-61) keeps the loop invariant at the
      level the first-cohort rule moves to. */
  lemma FirstCohort(t: seq<LevelRecord>, level: nat, c: nat)
    requires Running(t, level) && 1 <= level && t[level].patients == 0 && c <= CohortSize
    ensures Running(Treated(t, level, c), FirstMove(level, c))
  {
    var t' := Treated(t, level, c);
    assert forall l :: 0 <= l < Levels && l != level ==> t'[l] == t[l];
    if c == 0 && level < TopLevel {
      // the level above has never been treated, since this one had not been
      assert t[level + 1].patients == 0;
    }
  }

  /** The second cohort at a level (lines 62-83), when the six patients do not
      show exactly two DLTs, keeps the loop invariant at the level the
      second-cohort rule moves to (two DLTs is `SecondCohortDeclares`). */
  lemma SecondCohort(t: seq<LevelRecord>, level: nat, c: nat)
    requires Running(t, level) && 1 <= level && t[level].patients == 3 && c <= CohortSize
    requires t[level].dlts + c != 2
    ensures Running(Treated(t, level, c), SecondMove(t, level, t[level].dlts + c))
  {
    var t' := Treated(t, level, c);
    assert forall l :: 0 <= l < Levels && l != level ==> t'[l] == t[l];
  }

  /** Exactly two DLTs among the six patients of a level declare the level below
      (lines 74-77). */
  lemma SecondCohortDeclares(t: seq<LevelRecord>, level: nat, c: nat)
    requires Running(t, level) && 1 <= level && t[level].patients == 3 && c <= CohortSize
    requires t[level].dlts + c == 2
    ensures Finished(Declared(Treated(t, level, c), level - 1), level - 1)
  {
    var t' := Treated(t, level, c);
    assert forall l :: 0 <= l < Levels && l != level ==> t'[l] == t[l];
    var u := Declared(t', level - 1);
    assert forall l :: 0 <= l < Levels && l != level - 1 ==> u[l] == t'[l];
  }

  /** A level holding six patients is declared when it is the top level or the
      level above has shown two DLTs or more (lines 86-90). */
  lemma SixPatientsDeclare(t: seq<LevelRecord>, level: nat)
    requires Running(t, level) && 1 <= level && t[level].patients == 6
    requires SixDeclares(t, level)
    ensures Finished(Declared(t, level), level)
  {
    var u := Declared(t, level);
    assert forall l :: 0 <= l < Levels && l != level ==> u[l] == t[l];
  }

  /** Otherwise the walk escalates from it (lines 91-93). */
  lemma SixPatientsEscalate(t: seq<LevelRecord>, level: nat)
    requires Running(t, level) && 1 <= level && t[level].patients == 6
    requires !SixDeclares(t, level)
    ensures Running(t, level + 1)
  {
  }

  /** A level that can still take a cohort leaves room for it within ten cohorts. */
  lemma RoomForCohort(t: seq<LevelRecord>, level: nat)
    requires Running(t, level) && 1 <= level && t[level].patients < 6
    ensures PatientTotal(t) + CohortSize <= CohortSize * MaxCohorts
  {
    // raise this level to six patients and level 0 to six: at most 36 in all
    var u := t[level := t[level].(patients := 6)];
    var w := u[0 := u[0].(patients := 6)];
    BelowUpdate(t, level, u[level], Levels);
    BelowUpdate(u, 0, w[0], Levels);
    assert forall l :: 0 <= l < Levels ==> w[l].patients <= 6;
    PatientsBelowBound(w, Levels);
  }

  /** A finished walk over the first `drawn` cohorts is a concluded replication. */
  lemma FinishedConcluded(t: seq<LevelRecord>, m: nat, cohorts: seq<nat>, drawn: nat)
    requires Finished(t, m) && ValidCohorts(cohorts) && drawn <= MaxCohorts
    requires PatientTotal(t) == CohortSize * drawn && DltTotal(t) == CohortSum(cohorts, drawn)
    ensures Concluded(t, cohorts)
  {
    assert PatientTotal(t) / CohortSize == drawn;
  }

  // ---------------------------------------------------------------------
  // One replication on the flat array
  // ---------------------------------------------------------------------

  /** The slice of (scenario, replication) in `data` holds the table t. */
  ghost predicate Mirrors(data: array<nat>, scenario: nat, replication: nat, t: seq<LevelRecord>)
    requires data.Length == DataSize && scenario < Scenarios && replication < Replications
    reads data
  {
    |t| == Levels
    && forall l, p :: 0 <= l < Levels && 0 <= p < Properties ==>
         data[Idx(scenario, replication, l, p)] == Field(t[l], p)
  }

  /** `data[idx(scenario, replication, level, property)] = v`, with the table kept in step. */
  method Store(data: array<nat>, scenario: nat, replication: nat, level: nat, property: nat, v: nat,
               ghost t: seq<LevelRecord>)
    requires data.Length == DataSize && InRange(scenario, replication, level, property)
    requires Mirrors(data, scenario, replication, t)
    modifies data
    ensures Mirrors(data, scenario, replication, t[level := WithField(t[level], property, v)])
    ensures forall k :: 0 <= k < DataSize && !InSlice(k, scenario, replication) ==> data[k] == old(data[k])
  {
    data[Idx(scenario, replication, level, property)] := v;
    var t' := t[level := WithField(t[level], property, v)];
    forall l, p | 0 <= l < Levels && 0 <= p < Properties
      ensures data[Idx(scenario, replication, l, p)] == Field(t'[l], p)
    {
      if Idx(scenario, replication, l, p) == Idx(scenario, replication, level, property) {
        IdxInjective(scenario, replication, l, p, scenario, replication, level, property);
      }
    }
  }

  /** A cohort of three patients with c DLTs at `level` (lines 46-48 and 63-65). */
  method TreatCohort(data: array<nat>, scenario: nat, replication: nat, level: nat, c: nat,
                     ghost t: seq<LevelRecord>)
    requires data.Length == DataSize && scenario < Scenarios && replication < Replications && level < Levels
    requires Mirrors(data, scenario, replication, t)
    modifies data
    ensures Mirrors(data, scenario, replication, Treated(t, level, c))
    ensures forall k :: 0 <= k < DataSize && !InSlice(k, scenario, replication) ==> data[k] == old(data[k])
  {
    Store(data, scenario, replication, level, DltsProp, data[Idx(scenario, replication, level, DltsProp)] + c, t);
    ghost var t1 := t[level := WithField(t[level], DltsProp, t[level].dlts + c)];
    Store(data, scenario, replication, level, PatientsProp, data[Idx(scenario, replication, level, PatientsProp)] + CohortSize, t1);
    assert t1[level := WithField(t1[level], PatientsProp, t[level].patients + CohortSize)] == Treated(t, level, c);
  }

  /** `data[idx(scenario, replication, m, MTD_PROP)] = 1`. */
  method DeclareMtd(data: array<nat>, scenario: nat, replication: nat, m: nat, ghost t: seq<LevelRecord>)
    requires data.Length == DataSize && scenario < Scenarios && replication < Replications && m < Levels
    requires Mirrors(data, scenario, replication, t)
    modifies data
    ensures Mirrors(data, scenario, replication, Declared(t, m))
    ensures forall k :: 0 <= k < DataSize && !InSlice(k, scenario, replication) ==> data[k] == old(data[k])
  {
    Store(data, scenario, replication, m, MtdProp, 1, t);
    assert t[m := WithField(t[m], MtdProp, 1)] == Declared(t, m);
  }

  /** The table of a slice that mirrors t is t. */
  lemma TableOfMirror(data: array<nat>, scenario: nat, replication: nat, t: seq<LevelRecord>)
    requires data.Length == DataSize && scenario < Scenarios && replication < Replications
    requires Mirrors(data, scenario, replication, t)
    ensures TableOf(data[..], scenario, replication) == t
  {
    var u := TableOf(data[..], scenario, replication);
    forall l | 0 <= l < Levels
      ensures u[l] == t[l]
    {
      assert u[l].patients == data[Idx(scenario, replication, l, PatientsProp)] == Field(t[l], PatientsProp);
      assert u[l].dlts == data[Idx(scenario, replication, l, DltsProp)] == Field(t[l], DltsProp);
      assert u[l].mtd == data[Idx(scenario, replication, l, MtdProp)] == Field(t[l], MtdProp);
    }
  }

  /** The arm for a level without patients (lines 45-61): treat a cohort with c
      DLTs there and move as the first-cohort rule says. */
  method FirstCohortArm(data: array<nat>, scenario: nat, replication: nat, level: nat, c: nat,
                        ghost t: seq<LevelRecord>) returns (next: nat)
    requires data.Length == DataSize && scenario < Scenarios && replication < Replications
    requires Mirrors(data, scenario, replication, t)
    requires Running(t, level) && 1 <= level && t[level].patients == 0 && c <= CohortSize
    modifies data
    ensures next == FirstMove(level, c)
    ensures Mirrors(data, scenario, replication, Treated(t, level, c))
    ensures Running(Treated(t, level, c), next)
    ensures forall k :: 0 <= k < DataSize && !InSlice(k, scenario, replication) ==> data[k] == old(data[k])
  {
    TreatCohort(data, scenario, replication, level, c, t);
    next := level;
    match data[Idx(scenario, replication, level, DltsProp)] {
      case 0 =>
        if level < TopLevel {
          next := level + 1;
        }
      case 1 =>
      case 2 | 3 =>
        next := level - 1;
      case _ =>
        assert false;
    }
    FirstCohort(t, level, c);
  }

  /** The arm for a level with three patients (lines 62-83): treat a cohort with c
      DLTs there, then move, or declare the level below and stop. */
  method SecondCohortArm(data: array<nat>, scenario: nat, replication: nat, level: nat, c: nat,
                         ghost t: seq<LevelRecord>) returns (next: nat, stop: bool)
    requires data.Length == DataSize && scenario < Scenarios && replication < Replications
    requires Mirrors(data, scenario, replication, t)
    requires Running(t, level) && 1 <= level && t[level].patients == 3 && c <= CohortSize
    modifies data
    ensures stop <==> t[level].dlts + c == 2
    ensures !stop ==> next == SecondMove(t, level, t[level].dlts + c)
    ensures stop ==> (next == level - 1
                      && Mirrors(data, scenario, replication, Declared(Treated(t, level, c), next))
                      && Finished(Declared(Treated(t, level, c), next), next))
    ensures !stop ==> (Mirrors(data, scenario, replication, Treated(t, level, c))
                       && Running(Treated(t, level, c), next))
    ensures forall k :: 0 <= k < DataSize && !InSlice(k, scenario, replication) ==> data[k] == old(data[k])
  {
    TreatCohort(data, scenario, replication, level, c, t);
    ghost var t' := Treated(t, level, c);
    next, stop := level, false;
    match data[Idx(scenario, replication, level, DltsProp)] {
      case 0 | 1 =>
        if level < TopLevel && data[Idx(scenario, replication, level + 1, DltsProp)] < 2 {
          next := level + 1;
        }
      case 2 =>
        SecondCohortDeclares(t, level, c);
        DeclareMtd(data, scenario, replication, level - 1, t');
        next, stop := level - 1, true;
      case 3 | 4 =>
        // the source lists 5 and 6 here as well; at most one DLT before this
        // cohort and three in it make four the largest count, so those totals
        // cannot occur
        next := level - 1;
      case _ =>
        assert false;
    }
    if !stop {
      SecondCohort(t, level, c);
    }
  }

  /** The arm for a level with six patients (lines 84-99): declare it and stop,
      or escalate. */
  method SixPatientsArm(data: array<nat>, scenario: nat, replication: nat, level: nat,
                        ghost t: seq<LevelRecord>) returns (next: nat, stop: bool)
    requires data.Length == DataSize && scenario < Scenarios && replication < Replications
    requires Mirrors(data, scenario, replication, t)
    requires Running(t, level) && 1 <= level && t[level].patients == 6
    modifies data
    ensures stop <==> SixDeclares(t, level)
    ensures stop ==> (next == level
                      && Mirrors(data, scenario, replication, Declared(t, level)) && Finished(Declared(t, level), level))
    ensures !stop ==> next == level + 1 && Mirrors(data, scenario, replication, t) && Running(t, next)
    ensures forall k :: 0 <= k < DataSize && !InSlice(k, scenario, replication) ==> data[k] == old(data[k])
  {
    match data[Idx(scenario, replication, level, DltsProp)] {
      case 0 | 1 =>
        if level == TopLevel || data[Idx(scenario, replication, level + 1, DltsProp)] > 1 {
          SixPatientsDeclare(t, level);
          DeclareMtd(data, scenario, replication, level, t);
          next, stop := level, true;
        } else {
          SixPatientsEscalate(t, level);
          next, stop := level + 1, false;
        }
      case _ =>
        // the source de-escalates on 2..6 DLTs and panics above, but the
        // current level never has more than one DLT at the head of the loop
        assert false;
    }
  }

  /** The table t, left by the first `drawn` cohorts, counts their patients and DLTs. */
  predicate Counted(t: seq<LevelRecord>, cohorts: seq<nat>, drawn: nat)
    requires |t| == Levels
  {
    drawn <= MaxCohorts && drawn <= |cohorts|
    && PatientTotal(t) == CohortSize * drawn && DltTotal(t) == CohortSum(cohorts, drawn)
  }

  /** One pass of the escalation loop (lines 39-100): either the walk moves on,
      with a cohort more or a level higher, or it declares level `next` and stops. */
  method Advance(data: array<nat>, scenario: nat, replication: nat, cohorts: seq<nat>,
                 level: nat, drawn: nat, ghost t: seq<LevelRecord>)
    returns (next: nat, drawn': nat, stop: bool, ghost t': seq<LevelRecord>)
    requires data.Length == DataSize && scenario < Scenarios && replication < Replications
    requires ValidCohorts(cohorts)
    requires Mirrors(data, scenario, replication, t) && Running(t, level) && Counted(t, cohorts, drawn)
    modifies data
    ensures level == 0 ==> stop && next == 0 && drawn' == drawn && t' == Declared(t, 0)
    ensures 1 <= level && t[level].patients == 0 ==>
      drawn < |cohorts| && drawn' == drawn + 1 && !stop
      && next == FirstMove(level, cohorts[drawn]) && t' == Treated(t, level, cohorts[drawn])
    ensures 1 <= level && t[level].patients == 3 ==>
      drawn < |cohorts| && drawn' == drawn + 1
      && (stop <==> t[level].dlts + cohorts[drawn] == 2)
      && (stop ==> next == level - 1 && t' == Declared(Treated(t, level, cohorts[drawn]), level - 1))
      && (!stop ==> next == SecondMove(t, level, t[level].dlts + cohorts[drawn])
                    && t' == Treated(t, level, cohorts[drawn]))
    ensures 1 <= level && t[level].patients == 6 ==>
      drawn' == drawn && (stop <==> SixDeclares(t, level))
      && (stop ==> next == level && t' == Declared(t, level))
      && (!stop ==> next == level + 1 && t' == t)
    ensures Mirrors(data, scenario, replication, t') && |t'| == Levels && Counted(t', cohorts, drawn')
    ensures stop ==> Finished(t', next)
    ensures !stop ==> Running(t', next) && (drawn < drawn' || (drawn == drawn' && level < next))
    ensures forall k :: 0 <= k < DataSize && !InSlice(k, scenario, replication) ==> data[k] == old(data[k])
  {
    if level == 0 {
      LevelZeroDeclared(t);
      DeclareMtd(data, scenario, replication, level, t);
      DeclaredTotals(t, level);
      return level, drawn, true, Declared(t, level);
    }
    match data[Idx(scenario, replication, level, PatientsProp)] {
      case 0 =>
        RoomForCohort(t, level);
        var c := cohorts[drawn];
        TreatedTotals(t, level, c);
        next := FirstCohortArm(data, scenario, replication, level, c, t);
        drawn', stop, t' := drawn + 1, false, Treated(t, level, c);
      case 3 =>
        RoomForCohort(t, level);
        var c := cohorts[drawn];
        TreatedTotals(t, level, c);
        next, stop := SecondCohortArm(data, scenario, replication, level, c, t);
        drawn', t' := drawn + 1, Treated(t, level, c);
        if stop {
          DeclaredTotals(t', next);
          t' := Declared(t', next);
        }
      case 6 =>
        next, stop := SixPatientsArm(data, scenario, replication, level, t);
        drawn', t' := drawn, t;
        if stop {
          DeclaredTotals(t, next);
          t' := Declared(t, next);
        }
      case _ =>
        assert false;
    }
  }

  /** A slice that mirrors a finished walk over `drawn` cohorts holds a concluded replication. */
  lemma MirroredConcluded(data: array<nat>, scenario: nat, replication: nat, cohorts: seq<nat>,
                          t: seq<LevelRecord>, m: nat, drawn: nat)
    requires data.Length == DataSize && scenario < Scenarios && replication < Replications
    requires ValidCohorts(cohorts) && Mirrors(data, scenario, replication, t)
    requires Finished(t, m) && Counted(t, cohorts, drawn)
    ensures Concluded(TableOf(data[..], scenario, replication), cohorts)
  {
    TableOfMirror(data, scenario, replication, t);
    FinishedConcluded(t, m, cohorts, drawn);
  }

  /** The escalation loop of one replication (lines 38-102), with the DLT count of
      the k-th cohort drawn taken from cohorts[k]. */
  method RunReplication(data: array<nat>, scenario: nat, replication: nat, cohorts: seq<nat>)
    requires data.Length == DataSize && scenario < Scenarios && replication < Replications
    requires ValidCohorts(cohorts)
    requires forall l, p :: 0 <= l < Levels && 0 <= p < Properties ==> data[Idx(scenario, replication, l, p)] == 0
    modifies data
    ensures Concluded(TableOf(data[..], scenario, replication), cohorts)
    ensures forall k :: 0 <= k < DataSize && !InSlice(k, scenario, replication) ==> data[k] == old(data[k])
  {
    ghost var t := seq(Levels, _ => LevelRecord(0, 0, 0));
    BelowEmpty(t, Levels);
    var drawn: nat := 0;
    var level: nat := 1;
    var stop := false;
    while !stop
      invariant Mirrors(data, scenario, replication, t) && |t| == Levels && Counted(t, cohorts, drawn)
      invariant forall k :: 0 <= k < DataSize && !InSlice(k, scenario, replication) ==> data[k] == old(data[k])
      invariant !stop ==> Running(t, level)
      invariant stop ==> Finished(t, level)
      decreases !stop, MaxCohorts - drawn, TopLevel - level
    {
      level, drawn, stop, t := Advance(data, scenario, replication, cohorts, level, drawn, t);
    }
    MirroredConcluded(data, scenario, replication, cohorts, t, level, drawn);
  }

  // ---------------------------------------------------------------------
  // The whole simulation
  // ---------------------------------------------------------------------

  /** Every replication whose slice starts below flat index b is concluded in d. */
  ghost predicate DoneBelow(d: seq<nat>, draws: (nat, nat) -> seq<nat>, b: nat)
    requires |d| == DataSize
  {
    forall s: nat, r: nat :: s < Scenarios && r < Replications && Idx(s, r, 0, 0) < b ==>
      Concluded(TableOf(d, s, r), draws(s, r))
  }

  /** Nothing from flat index b on has been written yet. */
  ghost predicate ZeroFrom(d: seq<nat>, b: nat) {
    forall k :: b <= k < |d| ==> d[k] == 0
  }

  /** Running replication (s, r), which only writes its own slice, extends the
      concluded prefix of `data` over that slice, up to where replication r + 1
      starts, and keeps the rest untouched. */
  lemma ReplicationDone(before: seq<nat>, after: seq<nat>, draws: (nat, nat) -> seq<nat>, s: nat, r: nat)
    requires |before| == DataSize && |after| == DataSize && s < Scenarios && r < Replications
    requires Progress(before, draws, Idx(s, r, 0, 0))
    requires ValidCohorts(draws(s, r)) && Concluded(TableOf(after, s, r), draws(s, r))
    requires forall k :: 0 <= k < DataSize && !InSlice(k, s, r) ==> after[k] == before[k]
    ensures Progress(after, draws, Idx(s, r + 1, 0, 0))
  {
    NextReplication(s, r);
    forall s': nat, r': nat | s' < Scenarios && r' < Replications && Idx(s', r', 0, 0) < Idx(s, r, 0, 0) + ReplicationSize
      ensures Concluded(TableOf(after, s', r'), draws(s', r'))
    {
      if Idx(s', r', 0, 0) < Idx(s, r, 0, 0) {
        forall k | 0 <= k < DataSize && InSlice(k, s', r')
          ensures before[k] == after[k]
        {
          if InSlice(k, s, r) {
            SlicesDisjoint(s', r', s, r, k);
          }
        }
        TableFrame(before, after, s', r');
      } else {
        SlicesDisjoint(s', r', s, r, Idx(s', r', 0, 0));
      }
    }
  }

  /** A slice at or after the first unwritten index is still all zero. */
  lemma SliceZero(d: seq<nat>, s: nat, r: nat)
    requires |d| == DataSize && s < Scenarios && r < Replications && ZeroFrom(d, Idx(s, r, 0, 0))
    ensures forall l, p :: 0 <= l < Levels && 0 <= p < Properties ==> d[Idx(s, r, l, p)] == 0
  {
    forall l, p | 0 <= l < Levels && 0 <= p < Properties
      ensures d[Idx(s, r, l, p)] == 0
    {
      IdxInBounds(s, r, l, p);
    }
  }

  /** The slice after the last replication of scenario s starts scenario s + 1. */
  lemma NextScenario(s: nat)
    ensures Idx(s, Replications, 0, 0) == Idx(s, 0, 0, 0) + ScenarioSize
  {
  }

  /** The next replication's slice starts right after this one's. */
  lemma NextReplication(s: nat, r: nat)
    ensures Idx(s, r, 0, 0) + ReplicationSize == Idx(s, r + 1, 0, 0)
  {
  }

  /** The replications before flat index b are concluded and nothing after it is written. */
  ghost predicate Progress(d: seq<nat>, draws: (nat, nat) -> seq<nat>, b: nat)
    requires |d| == DataSize
  {
    DoneBelow(d, draws, b) && ZeroFrom(d, b)
  }

  /** Before the first replication nothing is claimed. */
  lemma NothingDoneYet(d: seq<nat>, draws: (nat, nat) -> seq<nat>)
    requires |d| == DataSize && forall k :: 0 <= k < |d| ==> d[k] == 0
    ensures Progress(d, draws, 0)
  {
  }

  /** Once every scenario is done, every replication is done. */
  lemma AllDone(d: seq<nat>, draws: (nat, nat) -> seq<nat>)
    requires |d| == DataSize && DoneBelow(d, draws, DataSize)
    ensures forall s: nat, r: nat :: s < Scenarios && r < Replications ==>
              Concluded(TableOf(d, s, r), draws(s, r))
  {
    forall s: nat, r: nat | s < Scenarios && r < Replications
      ensures Concluded(TableOf(d, s, r), draws(s, r))
    {
    }
  }

  /** Every replication is given enough cohorts of 0..3 DLTs. */
  predicate AllValid(draws: (nat, nat) -> seq<nat>) {
    forall s: nat, r: nat :: s < Scenarios && r < Replications ==> ValidCohorts(draws(s, r))
  }

  /** The replication loop of one scenario (lines 37-103). */
  method RunScenario(data: array<nat>, s: nat, draws: (nat, nat) -> seq<nat>, ghost done: nat)
    requires data.Length == DataSize && s < Scenarios && done == Idx(s, 0, 0, 0)
    requires AllValid(draws)
    requires Progress(data[..], draws, done)
    modifies data
    ensures Progress(data[..], draws, done + ScenarioSize)
  {
    for r := 0 to Replications
      invariant Progress(data[..], draws, Idx(s, r, 0, 0))
    {
      ghost var before := data[..];
      SliceZero(before, s, r);
      assert ValidCohorts(draws(s, r));
      RunReplication(data, s, r, draws(s, r));
      ReplicationDone(before, data[..], draws, s, r);
    }
    NextScenario(s);
  }

  /** The scenario loop of lines 36-104 over an all-zero `data`. */
  method RunAll(data: array<nat>, draws: (nat, nat) -> seq<nat>)
    requires data.Length == DataSize
    requires AllValid(draws)
    requires Progress(data[..], draws, 0)
    modifies data
    ensures DoneBelow(data[..], draws, DataSize)
  {
    ghost var done: nat := 0;
    for s := 0 to Scenarios
      invariant done == s * ScenarioSize
      invariant Progress(data[..], draws, done)
    {
      RunScenario(data, s, draws, done);
      done := done + ScenarioSize;
    }
  }

  /** The scenario and replication loops of lines 36-104: every replication of every
      scenario ends with one declared MTD, drawing its cohorts from draws(s, r). */
  method Simulate(draws: (nat, nat) -> seq<nat>) returns (data: array<nat>)
    requires AllValid(draws)
    ensures fresh(data) && data.Length == DataSize
    ensures forall s: nat, r: nat :: s < Scenarios && r < Replications ==>
              Concluded(TableOf(data[..], s, r), draws(s, r))
  {
    data := new nat[DataSize](_ => 0);
    NothingDoneYet(data[..], draws);
    RunAll(data, draws);
    AllDone(data[..], draws);
  }
}
