/**
 The defined-benefit formula over exact reals: service times multiplier times final
 average salary over twelve, reduced for early retirement by an age table, never
 below the plan's floor, reported in whole cents.
 */
module Benefit {
  import opened IntSets
  import opened Rounding

  type ReductionTable = map<int, real>

  datatype PlanParams = PlanParams(multiplier: real, fasPeriodMonths: nat, normalRetirementAge: int,
                                   benefitFloor: real, reductionTable: ReductionTable)

  datatype BenefitCalcResult = BenefitCalcResult(grossMonthly: real, reductionFactor: real, finalMonthly: real)

  const TIERS_1_2_REDUCTION: ReductionTable :=
    map[55 := 0.70, 56 := 0.73, 57 := 0.76, 58 := 0.79, 59 := 0.82, 60 := 0.85,
        61 := 0.88, 62 := 0.91, 63 := 0.94, 64 := 0.97, 65 := 1.00]

  const TIER_3_REDUCTION: ReductionTable :=
    map[60 := 0.70, 61 := 0.76, 62 := 0.82, 63 := 0.88, 64 := 0.94, 65 := 1.00]

  const TIER_1 := PlanParams(0.020, 36, 65, 800.00, TIERS_1_2_REDUCTION)
  const TIER_2 := PlanParams(0.015, 36, 65, 800.00, TIERS_1_2_REDUCTION)
  const TIER_3 := PlanParams(0.015, 60, 65, 800.00, TIER_3_REDUCTION)

  function MinAge(table: ReductionTable): (m: int)
    requires table != map[]
    ensures m in table && forall a :: a in table ==> m <= a
  {
    LeastExists(table.Keys);
    var m :| m in table && forall a :: a in table ==> m <= a;
    m
  }

  /** Exact entry, else no reduction from the normal retirement age on, else the factor of the youngest entry. */
  function LookupReduction(age: int, table: ReductionTable, nra: int): real {
    if age in table then table[age]
    else if age >= nra then 1.00
    else if table != map[] then table[MinAge(table)]
    else 1.00
  }

  function Gross(yos: real, fas: real, params: PlanParams): real {
    yos * params.multiplier * fas / 12.0
  }

  /** The benefit before rounding. */
  function Exact(yos: real, fas: real, age: int, params: PlanParams): real {
    var after := Gross(yos, fas, params) * LookupReduction(age, params.reductionTable, params.normalRetirementAge);
    if after > params.benefitFloor then after else params.benefitFloor
  }

  function CalcRetirementBenefit(yos: real, fas: real, age: int, params: PlanParams): BenefitCalcResult {
    var gross := Gross(yos, fas, params);
    var factor := LookupReduction(age, params.reductionTable, params.normalRetirementAge);
    var after := gross * factor;
    var final := if after > params.benefitFloor then after else params.benefitFloor;
    BenefitCalcResult(Cents(gross), factor, Cents(final))
  }

  // ----- When the reduction never falls with age -----

  ghost predicate NondecreasingInAge(table: ReductionTable, nra: int) {
    forall a, b :: a <= b ==> LookupReduction(a, table, nra) <= LookupReduction(b, table, nra)
  }

  /** What to check of the entries, and of the ages they leave out. */
  ghost predicate GoodTable(table: ReductionTable, nra: int) {
    && (forall a, b :: a in table && b in table && a <= b ==> table[a] <= table[b])
    && (forall a :: a in table ==> table[a] <= 1.0)
    && (forall b, gap :: b in table && nra <= gap < b && gap !in table ==> table[b] == 1.0)
    && (forall a, gap :: a in table && a < gap < nra && gap !in table ==> table[a] == table[MinAge(table)])
  }

  lemma GoodTableSuffices(table: ReductionTable, nra: int, a: int, b: int)
    requires GoodTable(table, nra) && a <= b
    ensures LookupReduction(a, table, nra) <= LookupReduction(b, table, nra)
  {
  }

  /** The factor never falls with age exactly when the table is good. */
  lemma NondecreasingIff(table: ReductionTable, nra: int)
    ensures NondecreasingInAge(table, nra) <==> GoodTable(table, nra)
  {
    if GoodTable(table, nra) {
      forall a, b | a <= b
        ensures LookupReduction(a, table, nra) <= LookupReduction(b, table, nra)
      {
        GoodTableSuffices(table, nra, a, b);
      }
    }
    if NondecreasingInAge(table, nra) {
      var late := PastAll(table.Keys, nra);
      assert late !in table;
      forall a | a in table
        ensures table[a] <= 1.0
      {
        assert LookupReduction(a, table, nra) <= LookupReduction(late, table, nra);
      }
      forall b, gap | b in table && nra <= gap < b && gap !in table
        ensures table[b] == 1.0
      {
        assert LookupReduction(gap, table, nra) <= LookupReduction(b, table, nra);
        assert LookupReduction(b, table, nra) <= LookupReduction(late, table, nra);
      }
      forall a, gap | a in table && a < gap < nra && gap !in table
        ensures table[a] == table[MinAge(table)]
      {
        assert LookupReduction(a, table, nra) <= LookupReduction(gap, table, nra);
        assert LookupReduction(MinAge(table), table, nra) <= LookupReduction(a, table, nra);
      }
      forall a, b | a in table && b in table && a <= b
        ensures table[a] <= table[b]
      {
        assert LookupReduction(a, table, nra) <= LookupReduction(b, table, nra);
      }
    }
  }

  /** A table without gaps around retirement age that never falls and is capped at 1 is good. */
  lemma GapFreeIsGood(table: ReductionTable, nra: int, lo: int, hi: int)
    requires lo <= nra <= hi + 1
    requires forall a :: a in table <==> lo <= a <= hi
    requires forall a, b :: a in table && b in table && a <= b ==> table[a] <= table[b] <= 1.0
    ensures GoodTable(table, nra)
  {
  }

  /** A plan whose table leaves out 62, which falls back to the youngest factor. */
  const GAPPED := PlanParams(0.020, 36, 65, 800.00, map[60 := 0.70, 61 := 0.80, 63 := 0.90])

  /** With a gap at 62, the same career pays 2400 a month from 61 and 2100 from 62. */
  lemma GapBreaksOrder()
    ensures LookupReduction(61, GAPPED.reductionTable, 65) == 0.80
    ensures LookupReduction(62, GAPPED.reductionTable, 65) == 0.70
    ensures CalcRetirementBenefit(30.0, 60000.0, 61, GAPPED).finalMonthly == 2400.00
    ensures CalcRetirementBenefit(30.0, 60000.0, 62, GAPPED).finalMonthly == 2100.00
  {
    MinAgeIs(GAPPED.reductionTable, 60);
    assert LookupReduction(61, GAPPED.reductionTable, 65) == 0.80;
    assert LookupReduction(62, GAPPED.reductionTable, 65) == 0.70;
    assert Gross(30.0, 60000.0, GAPPED) == 3000.0;
    hide LookupReduction, Gross;
    assert Cents(2400.00) == 2400.00 && Cents(2100.00) == 2100.00;
  }

  lemma MinAgeIs(table: ReductionTable, lo: int)
    requires lo in table && forall a :: a in table ==> lo <= a
    ensures MinAge(table) == lo
  {
  }

  /** A table that rises by equal steps to 1 at the normal retirement age. */
  lemma {:induction false} SteppedIsGood(table: ReductionTable, nra: int, lo: int, step: real)
    requires lo <= nra && step >= 0.0
    requires forall a :: a in table <==> lo <= a <= nra
    requires forall a :: a in table ==> table[a] == 1.0 - step * (nra - a) as real
    ensures GoodTable(table, nra)
  {
    forall a, b | a in table && b in table && a <= b
      ensures table[a] <= table[b] <= 1.0
    {
      var x, y := (nra - b) as real, (nra - a) as real;
      ProductNonNegative(step, y - x, step * (y - x));
      assert step * y - step * x == step * (y - x);
      ProductNonNegative(step, x, step * x);
    }
    GapFreeIsGood(table, nra, lo, nra);
  }

  lemma TiersOneTwoStepped(a: int)
    ensures a in TIERS_1_2_REDUCTION <==> 55 <= a <= 65
    ensures a in TIERS_1_2_REDUCTION ==> TIERS_1_2_REDUCTION[a] == 1.0 - 0.03 * (65 - a) as real
  {
  }

  lemma TierThreeStepped(a: int)
    ensures a in TIER_3_REDUCTION <==> 60 <= a <= 65
    ensures a in TIER_3_REDUCTION ==> TIER_3_REDUCTION[a] == 1.0 - 0.06 * (65 - a) as real
  {
  }

  lemma {:induction false} RegisteredTablesGood()
    ensures GoodTable(TIERS_1_2_REDUCTION, 65) && GoodTable(TIER_3_REDUCTION, 65)
  {
    hide GoodTable;
    forall a ensures (a in TIERS_1_2_REDUCTION <==> 55 <= a <= 65)
                     && (a in TIERS_1_2_REDUCTION ==> TIERS_1_2_REDUCTION[a] == 1.0 - 0.03 * (65 - a) as real)
    {
      TiersOneTwoStepped(a);
    }
    SteppedIsGood(TIERS_1_2_REDUCTION, 65, 55, 0.03);
    forall a ensures (a in TIER_3_REDUCTION <==> 60 <= a <= 65)
                     && (a in TIER_3_REDUCTION ==> TIER_3_REDUCTION[a] == 1.0 - 0.06 * (65 - a) as real)
    {
      TierThreeStepped(a);
    }
    SteppedIsGood(TIER_3_REDUCTION, 65, 60, 0.06);
  }

  // ----- Bounds -----

  ghost predicate Sound(params: PlanParams) {
    && params.multiplier >= 0.0
    && forall a :: a in params.reductionTable ==> 0.0 <= params.reductionTable[a] <= 1.0
  }

  lemma ProductNonNegative(x: real, y: real, p: real)
    requires x >= 0.0 && y >= 0.0 && p == x * y
    ensures p >= 0.0
  {
  }

  lemma ProductMonotone(x: real, x': real, y: real, y': real, p: real, p': real)
    requires 0.0 <= x <= x' && 0.0 <= y <= y' && p == x * y && p' == x' * y'
    ensures 0.0 <= p <= p'
  {
    ProductNonNegative(x, y, p);
    var q := x' * y;
    ProductNonNegative(x' - x, y, q - p);
    ProductNonNegative(x', y' - y, p' - q);
  }

  lemma GrossNonNegative(yos: real, fas: real, params: PlanParams)
    requires yos >= 0.0 && fas >= 0.0 && params.multiplier >= 0.0
    ensures Gross(yos, fas, params) >= 0.0
  {
    var ym := yos * params.multiplier;
    ProductNonNegative(yos, params.multiplier, ym);
    ProductNonNegative(ym, fas, ym * fas);
  }

  lemma FactorInUnit(age: int, params: PlanParams)
    requires Sound(params)
    ensures 0.0 <= LookupReduction(age, params.reductionTable, params.normalRetirementAge) <= 1.0
  {
  }

  /** Early retirement only ever reduces. */
  lemma ExactAtMost(yos: real, fas: real, age: int, params: PlanParams)
    requires yos >= 0.0 && fas >= 0.0 && Sound(params)
    ensures Exact(yos, fas, age, params)
            <= if Gross(yos, fas, params) > params.benefitFloor then Gross(yos, fas, params) else params.benefitFloor
  {
    GrossNonNegative(yos, fas, params);
    FactorInUnit(age, params);
    hide Gross, LookupReduction;
    var gross := Gross(yos, fas, params);
    var factor := LookupReduction(age, params.reductionTable, params.normalRetirementAge);
    ProductMonotone(factor, 1.0, gross, gross, gross * factor, gross);
  }

  /** The final benefit is at least the floor and at most the larger of gross and floor, each rounded. */
  lemma FinalBetweenFloorAndGross(yos: real, fas: real, age: int, params: PlanParams)
    requires yos >= 0.0 && fas >= 0.0 && Sound(params)
    ensures var r, floor := CalcRetirementBenefit(yos, fas, age, params), Cents(params.benefitFloor);
            floor <= r.finalMonthly <= if r.grossMonthly > floor then r.grossMonthly else floor
  {
    GrossNonNegative(yos, fas, params);
    ExactAtMost(yos, fas, age, params);
    hide Cents, Gross, LookupReduction;
    var gross, exact := Gross(yos, fas, params), Exact(yos, fas, age, params);
    CentsMonotone(params.benefitFloor, exact);
    if exact > params.benefitFloor {
      hide Exact;
      CentsMonotone(exact, gross);
    }
  }

  /** Reported amounts are within half a cent of the exact ones. */
  lemma ReportedWithinHalfCent(yos: real, fas: real, age: int, params: PlanParams)
    ensures var r := CalcRetirementBenefit(yos, fas, age, params);
            && Exact(yos, fas, age, params) - 0.005 <= r.finalMonthly <= Exact(yos, fas, age, params) + 0.005
            && Gross(yos, fas, params) - 0.005 <= r.grossMonthly <= Gross(yos, fas, params) + 0.005
  {
    CentsWithinHalfCent(Exact(yos, fas, age, params));
    CentsWithinHalfCent(Gross(yos, fas, params));
    hide Cents, Gross, LookupReduction;
  }

  /** The reported factor is the age's own entry, else 1 from retirement age on, else the youngest entry, if any. */
  ghost predicate IsFactorFor(factor: real, age: int, table: ReductionTable, nra: int) {
    if age in table then factor == table[age]
    else if age >= nra || table == map[] then factor == 1.0
    else exists m :: m in table && factor == table[m] && forall a :: a in table ==> m <= a
  }

  /** The result in terms of its own factor: half a cent around the larger of the reduced gross amount and the floor. */
  lemma FormulaHolds(yos: real, fas: real, age: int, params: PlanParams, gross: real, reduced: real)
    requires gross == yos * params.multiplier * fas / 12.0
    requires reduced == gross * CalcRetirementBenefit(yos, fas, age, params).reductionFactor
    ensures var r := CalcRetirementBenefit(yos, fas, age, params);
            var due := if reduced >= params.benefitFloor then reduced else params.benefitFloor;
            && gross - 0.005 <= r.grossMonthly <= gross + 0.005
            && due - 0.005 <= r.finalMonthly <= due + 0.005
            && IsFactorFor(r.reductionFactor, age, params.reductionTable, params.normalRetirementAge)
  {
    GrossIs(yos, fas, params, gross);
    FactorReported(yos, fas, age, params);
    hide CalcRetirementBenefit, Gross, LookupReduction, IsFactorFor, Exact;
    ReportedWithinHalfCent(yos, fas, age, params);
    FactorIsFor(age, params.reductionTable, params.normalRetirementAge);
    var factor := LookupReduction(age, params.reductionTable, params.normalRetirementAge);
    ExactIs(yos, fas, age, params, gross, factor, reduced);
  }

  lemma GrossIs(yos: real, fas: real, params: PlanParams, gross: real)
    requires gross == yos * params.multiplier * fas / 12.0
    ensures gross == Gross(yos, fas, params)
  {
  }

  lemma FactorReported(yos: real, fas: real, age: int, params: PlanParams)
    ensures CalcRetirementBenefit(yos, fas, age, params).reductionFactor
            == LookupReduction(age, params.reductionTable, params.normalRetirementAge)
  {
    hide Gross, Cents;
  }

  lemma FactorIsFor(age: int, table: ReductionTable, nra: int)
    ensures IsFactorFor(LookupReduction(age, table, nra), age, table, nra)
  {
    if table != map[] {
      assert MinAge(table) in table;
    }
  }

  /** The cases that the Python and the Go implementation are both held to, to the cent. */
  lemma PublishedCases()
    ensures CalcRetirementBenefit(25.0, 5500.00, 65, TIER_1) == BenefitCalcResult(229.17, 1.00, 800.00)
    ensures CalcRetirementBenefit(25.0, 5500.00, 58, TIER_1) == BenefitCalcResult(229.17, 0.79, 800.00)
    ensures CalcRetirementBenefit(30.0, 25000.00, 65, TIER_1) == BenefitCalcResult(1250.00, 1.00, 1250.00)
    ensures CalcRetirementBenefit(30.0, 25000.00, 58, TIER_1) == BenefitCalcResult(1250.00, 0.79, 987.50)
    ensures CalcRetirementBenefit(25.0, 5500.00, 65, TIER_2) == BenefitCalcResult(171.88, 1.00, 800.00)
    ensures CalcRetirementBenefit(30.0, 25000.00, 63, TIER_3) == BenefitCalcResult(937.50, 0.88, 825.00)
  {
    var t1, t3 := TIERS_1_2_REDUCTION, TIER_3_REDUCTION;
    assert LookupReduction(65, t1, 65) == 1.00 && LookupReduction(58, t1, 65) == 0.79;
    assert LookupReduction(63, t3, 65) == 0.88;
    assert Gross(25.0, 5500.00, TIER_1) * 12.0 == 2750.0 && Gross(25.0, 5500.00, TIER_2) * 12.0 == 2062.5;
    assert Gross(30.0, 25000.00, TIER_1) == 1250.0 && Gross(30.0, 25000.00, TIER_3) == 937.5;
    hide LookupReduction, Gross;
    assert Cents(2750.0 / 12.0) == 229.17 && Cents(2062.5 / 12.0) == 171.88;
    assert Cents(1250.0) == 1250.0 && Cents(937.5) == 937.5;
    assert Cents(800.0) == 800.0 && Cents(987.5) == 987.5 && Cents(825.0) == 825.0;
  }

  /** Between two plans, more of everything gives no less. */
  lemma FinalMonotone(yos: real, fas: real, age: int, params: PlanParams, yos': real, fas': real, age': int,
                      params': PlanParams)
    requires 0.0 <= yos <= yos' && 0.0 <= fas <= fas' && Sound(params)
    requires params.multiplier <= params'.multiplier && params.benefitFloor <= params'.benefitFloor
    requires LookupReduction(age, params.reductionTable, params.normalRetirementAge)
             <= LookupReduction(age', params'.reductionTable, params'.normalRetirementAge)
    ensures CalcRetirementBenefit(yos, fas, age, params).finalMonthly
            <= CalcRetirementBenefit(yos', fas', age', params').finalMonthly
  {
    GrossMonotone(yos, fas, params, yos', fas', params');
    GrossNonNegative(yos, fas, params);
    FactorInUnit(age, params);
    var gross, gross' := Gross(yos, fas, params), Gross(yos', fas', params');
    var f := LookupReduction(age, params.reductionTable, params.normalRetirementAge);
    var f' := LookupReduction(age', params'.reductionTable, params'.normalRetirementAge);
    ProductMonotone(gross, gross', f, f', gross * f, gross' * f');
    CentsMonotone(Exact(yos, fas, age, params), Exact(yos', fas', age', params'));
    hide Cents, Gross, LookupReduction;
  }

  lemma GrossMonotone(yos: real, fas: real, params: PlanParams, yos': real, fas': real, params': PlanParams)
    requires 0.0 <= yos <= yos' && 0.0 <= fas <= fas' && 0.0 <= params.multiplier <= params'.multiplier
    ensures Gross(yos, fas, params) <= Gross(yos', fas', params')
  {
    var ym, ym' := yos * params.multiplier, yos' * params'.multiplier;
    ProductMonotone(yos, yos', params.multiplier, params'.multiplier, ym, ym');
    ProductMonotone(ym, ym', fas, fas', ym * fas, ym' * fas');
  }

  /** For a plan with a good table the benefit never falls with service, salary or age. */
  lemma BenefitMonotone(params: PlanParams, yos: real, fas: real, age: int, yos': real, fas': real, age': int)
    requires Sound(params) && GoodTable(params.reductionTable, params.normalRetirementAge)
    requires 0.0 <= yos <= yos' && 0.0 <= fas <= fas' && age <= age'
    ensures CalcRetirementBenefit(yos, fas, age, params).finalMonthly
            <= CalcRetirementBenefit(yos', fas', age', params).finalMonthly
  {
    GoodTableSuffices(params.reductionTable, params.normalRetirementAge, age, age');
    FinalMonotone(yos, fas, age, params, yos', fas', age', params);
  }

  // ----- Exactly when the benefit never falls -----

  ghost predicate NeverFalls(params: PlanParams) {
    forall yos, fas, age, yos', fas', age' | 0.0 <= yos <= yos' && 0.0 <= fas <= fas' && age <= age' ::
      CalcRetirementBenefit(yos, fas, age, params).finalMonthly
      <= CalcRetirementBenefit(yos', fas', age', params).finalMonthly
  }

  /** Without a multiplier there is nothing to reduce. */
  lemma NothingAccrues(params: PlanParams, yos: real, fas: real, age: int)
    requires params.multiplier == 0.0
    ensures Exact(yos, fas, age, params) == if 0.0 > params.benefitFloor then 0.0 else params.benefitFloor
  {
    var factor := LookupReduction(age, params.reductionTable, params.normalRetirementAge);
    assert yos * params.multiplier == 0.0;
    assert Gross(yos, fas, params) == 0.0;
    ExactIs(yos, fas, age, params, 0.0, factor, 0.0 * factor);
    hide Gross, LookupReduction, Exact;
  }

  /** A gross amount that tells two factors apart, above the floor. */
  lemma TellingGross(f: real, f': real, floor: real) returns (g: real)
    requires 0.0 <= f' < f
    ensures g >= 0.0 && g * f >= g * f' + 1.0 && g * f >= floor + 1.0
  {
    var d, top := f - f', if floor >= 0.0 then floor + 1.0 else 1.0;
    var p, q := 1.0 / d, top / f;
    assert p * d == 1.0 && q * f == top;
    g := p + q;
    ProductNonNegative(q, d, q * d);
    ProductNonNegative(p, f, p * f);
    assert g * d == p * d + q * d;
    assert g * f == p * f + q * f;
    assert g * f - g * f' == g * d;
  }

  lemma ExactIs(yos: real, fas: real, age: int, params: PlanParams, gross: real, factor: real, after: real)
    requires gross == Gross(yos, fas, params) && after == gross * factor
    requires factor == LookupReduction(age, params.reductionTable, params.normalRetirementAge)
    ensures Exact(yos, fas, age, params) == if after > params.benefitFloor then after else params.benefitFloor
  {
    hide Gross, LookupReduction;
  }

  /** One year of service at the right salary gives any gross amount. */
  lemma SalaryFor(g: real, params: PlanParams) returns (fas: real)
    requires g >= 0.0 && params.multiplier > 0.0
    ensures fas >= 0.0 && Gross(1.0, fas, params) == g
  {
    var m := params.multiplier;
    var x := g / m;
    assert m * x == g;
    fas := 12.0 * x;
    assert m * fas == 12.0 * (m * x);
  }

  /** Two ages whose factors fall are two benefits that fall, floor and rounding notwithstanding. */
  lemma {:induction false} FactorFallsBenefitFalls(params: PlanParams, age: int, age': int) returns (fas: real)
    requires Sound(params) && params.multiplier > 0.0
    requires LookupReduction(age', params.reductionTable, params.normalRetirementAge)
             < LookupReduction(age, params.reductionTable, params.normalRetirementAge)
    ensures fas >= 0.0
    ensures CalcRetirementBenefit(1.0, fas, age', params).finalMonthly
            < CalcRetirementBenefit(1.0, fas, age, params).finalMonthly
  {
    FactorInUnit(age', params);
    var f := LookupReduction(age, params.reductionTable, params.normalRetirementAge);
    var f' := LookupReduction(age', params.reductionTable, params.normalRetirementAge);
    var g := TellingGross(f, f', params.benefitFloor);
    fas := SalaryFor(g, params);
    ExactIs(1.0, fas, age, params, g, f, g * f);
    ExactIs(1.0, fas, age', params, g, f', g * f');
    hide Gross, LookupReduction, Exact;
    ReportedWithinHalfCent(1.0, fas, age, params);
    ReportedWithinHalfCent(1.0, fas, age', params);
    hide CalcRetirementBenefit, Exact;
  }

  /**
   The benefit never falls with service, salary or age if and only if the plan's
   table is good, or the plan accrues nothing.
   */
  lemma {:induction false} NeverFallsIff(params: PlanParams)
    requires Sound(params)
    ensures NeverFalls(params)
            <==> params.multiplier == 0.0 || GoodTable(params.reductionTable, params.normalRetirementAge)
  {
    var table, nra := params.reductionTable, params.normalRetirementAge;
    if params.multiplier == 0.0 {
      forall yos, fas, age, yos', fas', age' | 0.0 <= yos <= yos' && 0.0 <= fas <= fas' && age <= age'
        ensures CalcRetirementBenefit(yos, fas, age, params).finalMonthly
                <= CalcRetirementBenefit(yos', fas', age', params).finalMonthly
      {
        NothingAccrues(params, yos, fas, age);
        NothingAccrues(params, yos', fas', age');
        FinalIsRoundedExact(yos, fas, age, params);
        FinalIsRoundedExact(yos', fas', age', params);
      }
    } else if GoodTable(table, nra) {
      forall yos, fas, age, yos', fas', age' | 0.0 <= yos <= yos' && 0.0 <= fas <= fas' && age <= age'
        ensures CalcRetirementBenefit(yos, fas, age, params).finalMonthly
                <= CalcRetirementBenefit(yos', fas', age', params).finalMonthly
      {
        BenefitMonotone(params, yos, fas, age, yos', fas', age');
      }
    } else {
      hide GoodTable, Sound, CalcRetirementBenefit, LookupReduction;
      NondecreasingIff(table, nra);
      var age, age' :| age <= age' && LookupReduction(age', table, nra) < LookupReduction(age, table, nra);
      var fas := FactorFallsBenefitFalls(params, age, age');
    }
  }

  lemma FinalIsRoundedExact(yos: real, fas: real, age: int, params: PlanParams)
    ensures CalcRetirementBenefit(yos, fas, age, params).finalMonthly == Cents(Exact(yos, fas, age, params))
  {
    hide Cents, Gross, LookupReduction;
  }

  lemma RegisteredPlansSound()
    ensures Sound(TIER_1) && Sound(TIER_2) && Sound(TIER_3)
  {
  }

  /** All registered plans behave. */
  lemma {:induction false} RegisteredBenefitMonotone(params: PlanParams, yos: real, fas: real, age: int, yos': real,
                                                     fas': real, age': int)
    requires params in {TIER_1, TIER_2, TIER_3}
    requires 0.0 <= yos <= yos' && 0.0 <= fas <= fas' && age <= age'
    ensures CalcRetirementBenefit(yos, fas, age, params).finalMonthly
            <= CalcRetirementBenefit(yos', fas', age', params).finalMonthly
  {
    RegisteredTablesGood();
    RegisteredPlansSound();
    BenefitMonotone(params, yos, fas, age, yos', fas', age');
  }

  lemma TierThreeReducesMore(age: int)
    ensures LookupReduction(age, TIER_3_REDUCTION, 65) <= LookupReduction(age, TIERS_1_2_REDUCTION, 65)
  {
    MinAgeIs(TIERS_1_2_REDUCTION, 55);
    MinAgeIs(TIER_3_REDUCTION, 60);
    if age < 55 || age > 65 {
      assert age !in TIERS_1_2_REDUCTION && age !in TIER_3_REDUCTION;
    } else if age < 60 {
      assert age !in TIER_3_REDUCTION && age in TIERS_1_2_REDUCTION;
    } else {
      assert age in TIER_3_REDUCTION && age in TIERS_1_2_REDUCTION;
    }
  }

  /** On equal inputs the older tier never pays less. */
  lemma OlderTierPaysNoLess(yos: real, fas: real, age: int)
    requires yos >= 0.0 && fas >= 0.0
    ensures CalcRetirementBenefit(yos, fas, age, TIER_1).finalMonthly
            >= CalcRetirementBenefit(yos, fas, age, TIER_2).finalMonthly
            >= CalcRetirementBenefit(yos, fas, age, TIER_3).finalMonthly
  {
    RegisteredPlansSound();
    TierThreeReducesMore(age);
    FinalMonotone(yos, fas, age, TIER_2, yos, fas, age, TIER_1);
    FinalMonotone(yos, fas, age, TIER_3, yos, fas, age, TIER_2);
  }
}
