/**
 Systematic-pattern detection: mismatches are grouped by domain and plan, split by
 sign, and a group of at least five whose amounts cluster tightly becomes a pattern.
 Amounts are exact reals; the coefficient of variation is compared in squared form.
 */
module Patterns {
  import opened Sequences
  import opened Samples

  datatype ReconciliationResult = ReconciliationResult(
    memberId: string, varianceAmount: real, suspectedDomain: string, memberStatus: string,
    planCode: string, category: string)

  datatype Direction = Positive | Negative

  datatype Key = Key(domain: string, plan: string)

  /** `meanVariance` and `cvSquared` before the rounding for display. */
  datatype Pattern = Pattern(patternId: string, suspectedDomain: string, planCode: string, direction: Direction,
                             memberCount: nat, meanVariance: real, cvSquared: real, affectedMembers: seq<string>)

  const MIN_MEMBERS_FOR_PATTERN := 5
  const MAX_CV_FOR_SYSTEMATIC := 0.3

  type Results = seq<ReconciliationResult>

  predicate Mismatch(r: ReconciliationResult) {
    r.category != "MATCH"
  }

  function KeyOf(r: ReconciliationResult): Key {
    Key(r.suspectedDomain, r.planCode)
  }

  predicate IsMember(key: Key, r: ReconciliationResult) {
    Mismatch(r) && KeyOf(r) == key
  }

  predicate HasSign(d: Direction, r: ReconciliationResult) {
    if d.Positive? then r.varianceAmount > 0.0 else r.varianceAmount < 0.0
  }

  function InGroup(key: Key): ReconciliationResult -> bool {
    (r: ReconciliationResult) => IsMember(key, r)
  }

  function Signed(d: Direction): ReconciliationResult -> bool {
    (r: ReconciliationResult) => HasSign(d, r)
  }

  function Belongs(key: Key, d: Direction): ReconciliationResult -> bool {
    (r: ReconciliationResult) => IsMember(key, r) && HasSign(d, r)
  }

  function Abs(x: real): real {
    if x < 0.0 then -x else x
  }

  function Amount(r: ReconciliationResult): real {
    Abs(r.varianceAmount)
  }

  function Id(r: ReconciliationResult): string {
    r.memberId
  }

  function Subgroup(results: Results, key: Key, d: Direction): Results {
    Filter(results, Belongs(key, d))
  }

  /** A sample variance in proportion to a squared mean. */
  function Ratio(ss: real, n: real, z: real): real
    requires n > 0.0 && z > 0.0
  {
    ss / n / z
  }

  /** The square of the sample coefficient of variation. */
  function CvSquared(amounts: seq<real>): real
    requires |amounts| >= 2 && Mean(amounts) != 0.0
  {
    SquarePositive(Mean(amounts));
    Ratio(SumSqDev(amounts, Mean(amounts)), (|amounts| - 1) as real, Square(Mean(amounts)))
  }

  predicate Systematic(sub: Results) {
    && |sub| >= MIN_MEMBERS_FOR_PATTERN
    && Mean(Map(sub, Amount)) != 0.0
    && CvSquared(Map(sub, Amount)) < Square(MAX_CV_FOR_SYSTEMATIC)
  }

  function DirectionName(d: Direction): string {
    if d.Positive? then "positive" else "negative"
  }

  function PatternFrom(key: Key, d: Direction, sub: Results): Pattern
    requires Systematic(sub)
  {
    var amounts := Map(sub, Amount);
    Pattern(key.domain + "_" + key.plan + "_" + DirectionName(d), key.domain, key.plan, d,
            |sub|, Mean(amounts), CvSquared(amounts), Map(sub, Id))
  }

  /** Keys of the mismatches, in order of first appearance: the order of the grouping dictionary. */
  function Keys(results: Results): seq<Key> {
    if results == [] then []
    else
      var ks, r := Keys(Init(results)), Last(results);
      if Mismatch(r) && KeyOf(r) !in ks then ks + [KeyOf(r)] else ks
  }

  function Emit(results: Results, key: Key, d: Direction): seq<Pattern> {
    var sub := Subgroup(results, key, d);
    if Systematic(sub) then [PatternFrom(key, d, sub)] else []
  }

  function EmitAll(results: Results, keys: seq<Key>): seq<Pattern> {
    if keys == [] then []
    else EmitAll(results, Init(keys)) + Emit(results, Last(keys), Positive) + Emit(results, Last(keys), Negative)
  }

  function Detect(results: Results): seq<Pattern> {
    EmitAll(results, Keys(results))
  }

  // ----- The computation -----

  type Groups = map<Key, Results>

  ghost predicate Grouped(groups: Groups, order: seq<Key>, results: Results) {
    && order == Keys(results)
    && (forall key :: key in groups <==> key in order)
    && (forall key :: key in groups ==> groups[key] == Filter(results, InGroup(key)))
  }

  lemma {:induction false} NotYetGrouped(results: Results, key: Key)
    requires key !in Keys(results)
    ensures Filter(results, InGroup(key)) == []
  {
    if results != [] {
      NotYetGrouped(Init(results), key);
    }
  }

  lemma GroupOneMore(groups: Groups, order: seq<Key>, results: Results, r: ReconciliationResult)
    requires Grouped(groups, order, results)
    ensures !Mismatch(r) ==> Grouped(groups, order, results + [r])
    ensures Mismatch(r) ==>
              var key := KeyOf(r);
              Grouped(groups[key := (if key in groups then groups[key] else []) + [r]],
                      if key in groups then order else order + [key], results + [r])
  {
    KeysOneMore(results, r);
    if KeyOf(r) !in groups {
      NotYetGrouped(results, KeyOf(r));
    }
    hide Filter, Keys;
    forall key
      ensures Filter(results + [r], InGroup(key))
              == if IsMember(key, r) then Filter(results, InGroup(key)) + [r] else Filter(results, InGroup(key))
    {
      FilterOneMore(results, r, InGroup(key));
    }
  }

  lemma KeysOneMore(results: Results, r: ReconciliationResult)
    ensures Keys(results + [r])
            == if Mismatch(r) && KeyOf(r) !in Keys(results) then Keys(results) + [KeyOf(r)] else Keys(results)
  {
    assert Init(results + [r]) == results;
  }

  method Group(results: Results) returns (groups: Groups, order: seq<Key>)
    ensures Grouped(groups, order, results)
  {
    groups, order := map[], [];
    for i := 0 to |results|
      invariant Grouped(groups, order, results[..i])
    {
      var r := results[i];
      GroupOneMore(groups, order, results[..i], r);
      assert results[..i + 1] == results[..i] + [r];
      if !Mismatch(r) {
        continue;
      }
      var key := KeyOf(r);
      if key !in groups {
        order := order + [key];
        groups := groups[key := []];
      }
      groups := groups[key := groups[key] + [r]];
    }
    assert results[..|results|] == results;
  }

  method DetectSystematicPatterns(results: Results) returns (patterns: seq<Pattern>)
    ensures patterns == Detect(results)
  {
    var groups, order := Group(results);
    hide Systematic, PatternFrom, Emit, Filter;
    patterns := [];
    for i := 0 to |order|
      invariant patterns == EmitAll(results, order[..i])
    {
      var key := order[i];
      var found := AssessGroup(results, key, groups[key]);
      EmitAllOneMore(results, order[..i], key);
      assert order[..i + 1] == order[..i] + [key];
      patterns := patterns + found;
    }
    assert order[..|order|] == order;
  }

  lemma EmitAllOneMore(results: Results, keys: seq<Key>, key: Key)
    ensures EmitAll(results, keys + [key])
            == EmitAll(results, keys) + (Emit(results, key, Positive) + Emit(results, key, Negative))
  {
    assert Init(keys + [key]) == keys;
    hide Emit;
  }

  /** The two signs of one group. */
  method AssessGroup(ghost results: Results, key: Key, members: Results) returns (found: seq<Pattern>)
    requires members == Filter(results, InGroup(key))
    ensures found == Emit(results, key, Positive) + Emit(results, key, Negative)
  {
    hide Systematic, PatternFrom, Filter;
    found := [];
    for j := 0 to 2
      invariant j == 0 ==> found == []
      invariant j == 1 ==> found == Emit(results, key, Positive)
      invariant j == 2 ==> found == Emit(results, key, Positive) + Emit(results, key, Negative)
    {
      var direction := if j == 0 then Positive else Negative;
      FilterTwice(results, InGroup(key), Signed(direction), Belongs(key, direction));
      var subgroup := Filter(members, Signed(direction));
      assert subgroup == Subgroup(results, key, direction);
      var more := Assess(key, direction, subgroup);
      assert more == Emit(results, key, direction);
      found := found + more;
    }
  }

  /** The inner loop's body: skip a subgroup that is too small or too scattered. */
  method Assess(key: Key, direction: Direction, subgroup: Results) returns (found: seq<Pattern>)
    ensures found == if Systematic(subgroup) then [PatternFrom(key, direction, subgroup)] else []
  {
    hide Mean, SumSqDev, Square;
    if |subgroup| < MIN_MEMBERS_FOR_PATTERN {
      return [];
    }
    var amounts := Map(subgroup, Amount);
    var mean := Mean(amounts);
    if mean == 0.0 {
      return [];
    }
    var cvSquared := 0.0;
    if |amounts| >= 2 {
      var sampleVariance := SumSqDev(amounts, mean) / (|amounts| - 1) as real;
      SquarePositive(mean);
      cvSquared := sampleVariance / Square(mean);
    }
    if cvSquared >= Square(MAX_CV_FOR_SYSTEMATIC) {
      return [];
    }
    var patternId := key.domain + "_" + key.plan + "_" + DirectionName(direction);
    return [Pattern(patternId, key.domain, key.plan, direction, |subgroup|, mean, cvSquared, Map(subgroup, Id))];
  }

  // ----- What is emitted -----

  lemma {:induction false} KeysAreDistinctMismatchKeys(results: Results)
    ensures forall i, j :: 0 <= i < j < |Keys(results)| ==> Keys(results)[i] != Keys(results)[j]
    ensures forall key :: key in Keys(results) <==> exists r :: r in results && Mismatch(r) && KeyOf(r) == key
  {
    if results != [] {
      KeysAreDistinctMismatchKeys(Init(results));
      assert forall r :: r in results <==> r in Init(results) || r == Last(results);
    }
  }

  /** `p` is what the subgroup of its own domain, plan and direction yields. */
  ghost predicate Emitted(results: Results, p: Pattern) {
    p in Emit(results, Key(p.suspectedDomain, p.planCode), p.direction)
  }

  lemma EmitOwns(results: Results, key: Key, d: Direction)
    ensures |Emit(results, key, d)| <= 1
    ensures forall p :: p in Emit(results, key, d) ==>
              Key(p.suspectedDomain, p.planCode) == key && p.direction == d && Emitted(results, p)
  {
    hide Systematic, Subgroup, Mean, CvSquared;
  }

  lemma {:induction false} EmittedFrom(results: Results, keys: seq<Key>)
    ensures forall p :: p in EmitAll(results, keys) <==>
                        Key(p.suspectedDomain, p.planCode) in keys && Emitted(results, p)
  {
    hide Emit;
    if keys != [] {
      EmittedFrom(results, Init(keys));
      var key := Last(keys);
      assert forall k :: k in keys <==> k in Init(keys) || k == key;
      EmitOwns(results, key, Positive);
      EmitOwns(results, key, Negative);
      forall p: Pattern | Key(p.suspectedDomain, p.planCode) == key && Emitted(results, p)
        ensures p in EmitAll(results, keys)
      {
        assert p.direction == Positive || p.direction == Negative;
      }
    }
  }

  /** Two patterns never share domain, plan and direction. */
  ghost predicate DistinctOrigins(ps: seq<Pattern>) {
    forall i, j :: 0 <= i < j < |ps| ==>
      (ps[i].suspectedDomain, ps[i].planCode, ps[i].direction)
      != (ps[j].suspectedDomain, ps[j].planCode, ps[j].direction)
  }

  lemma {:induction false} EmittedOnce(results: Results, keys: seq<Key>)
    requires forall i, j :: 0 <= i < j < |keys| ==> keys[i] != keys[j]
    ensures DistinctOrigins(EmitAll(results, keys))
  {
    hide Emit;
    if keys != [] {
      EmittedOnce(results, Init(keys));
      EmittedFrom(results, Init(keys));
      var key := Last(keys);
      assert key !in Init(keys);
      EmitOwns(results, key, Positive);
      EmitOwns(results, key, Negative);
      var before := EmitAll(results, Init(keys));
      assert forall i :: 0 <= i < |before| ==> before[i] in before;
    }
  }

  /**
   Patterns are exactly the systematic subgroups: every pattern is the subgroup of
   one domain, plan and sign, every systematic subgroup is emitted, and none twice.
   */
  lemma DetectIsExact(results: Results)
    ensures forall p :: p in Detect(results) <==>
              var sub := Subgroup(results, Key(p.suspectedDomain, p.planCode), p.direction);
              Systematic(sub) && p == PatternFrom(Key(p.suspectedDomain, p.planCode), p.direction, sub)
    ensures DistinctOrigins(Detect(results))
  {
    hide Mean, CvSquared, DistinctOrigins;
    KeysAreDistinctMismatchKeys(results);
    EmittedFrom(results, Keys(results));
    EmittedOnce(results, Keys(results));
    forall key, d | Systematic(Subgroup(results, key, d))
      ensures key in Keys(results)
    {
      FilterMembers(results, Belongs(key, d));
      var r := Subgroup(results, key, d)[0];
      assert r in Subgroup(results, key, d);
      assert Mismatch(r) && KeyOf(r) == key;
    }
    hide Systematic, Subgroup, PatternFrom;
  }

  /** No result supports two patterns. */
  lemma NoResultInTwoPatterns(results: Results, p: Pattern, q: Pattern, r: ReconciliationResult)
    requires r in Subgroup(results, Key(p.suspectedDomain, p.planCode), p.direction)
    requires r in Subgroup(results, Key(q.suspectedDomain, q.planCode), q.direction)
    requires p in Detect(results) && q in Detect(results)
    ensures p == q
  {
    hide Detect, Systematic, PatternFrom;
    DetectIsExact(results);
    FilterMembers(results, Belongs(Key(p.suspectedDomain, p.planCode), p.direction));
    FilterMembers(results, Belongs(Key(q.suspectedDomain, q.planCode), q.direction));
    assert IsMember(Key(p.suspectedDomain, p.planCode), r) && HasSign(p.direction, r);
    assert IsMember(Key(q.suspectedDomain, q.planCode), r) && HasSign(q.direction, r);
    hide Subgroup;
    assert p.direction == q.direction && p.suspectedDomain == q.suspectedDomain && p.planCode == q.planCode;
  }

  lemma {:induction false} AmountsPositive(sub: Results)
    requires sub != [] && forall r :: r in sub ==> r.varianceAmount != 0.0
    ensures Sum(Map(sub, Amount)) > 0.0
  {
    assert Last(sub) in sub;
    assert Init(Map(sub, Amount)) == Map(Init(sub), Amount);
    if |sub| > 1 {
      assert forall r :: r in Init(sub) ==> r in sub;
      AmountsPositive(Init(sub));
    }
  }

  /** The tight-cluster bound that a cut on the sample coefficient of variation implies for every member. */
  lemma TightCluster(results: Results, key: Key, d: Direction, i: nat)
    requires Systematic(Subgroup(results, key, d)) && i < |Subgroup(results, key, d)|
    ensures var sub := Subgroup(results, key, d);
            var n, m := |sub| as real, Mean(Map(sub, Amount));
            && |sub| >= 5 && m > 0.0
            && sub[i] in results && Mismatch(sub[i]) && KeyOf(sub[i]) == key && HasSign(d, sub[i])
            && n * Square(Amount(sub[i]) - m) < 0.09 * (Square(n - 1.0) * Square(m))
  {
    hide Mean, SumSqDev, Square, Sum, Ratio, Subgroup, CvSquared;
    var sub := Subgroup(results, key, d);
    SubgroupMembers(results, key, d);
    assert sub[i] in sub;
    ClusterMembers(Map(sub, Amount), i);
  }

  lemma SubgroupMembers(results: Results, key: Key, d: Direction)
    ensures forall r :: r in Subgroup(results, key, d) ==> r in results && IsMember(key, r) && HasSign(d, r)
    ensures Subgroup(results, key, d) != [] ==> Sum(Map(Subgroup(results, key, d), Amount)) > 0.0
  {
    hide Sum;
    FilterMembers(results, Belongs(key, d));
    var sub := Subgroup(results, key, d);
    forall r | r in sub
      ensures r.varianceAmount != 0.0
    {
      assert HasSign(d, r);
    }
    if sub != [] {
      AmountsPositive(sub);
    }
  }

  lemma {:induction false} ClusterMembers(amounts: seq<real>, i: nat)
    requires i < |amounts| && 5 <= |amounts| && Sum(amounts) > 0.0
    requires Mean(amounts) != 0.0 && CvSquared(amounts) < Square(MAX_CV_FOR_SYSTEMATIC)
    ensures var n, m := |amounts| as real, Mean(amounts);
            m > 0.0 && n * Square(amounts[i] - m) < 0.09 * (Square(n - 1.0) * Square(m))
  {
    hide Mean, SumSqDev, Square, Sum, Ratio, CvSquared;
    var n, m, ss := |amounts| as real, Mean(amounts), SumSqDev(amounts, Mean(amounts));
    CvUnfolds(amounts, m, ss);
    SquareOfCut();
    MeanTimesSize(amounts);
    PositiveQuotient(m, n);
    MemberDeviation(amounts, i);
    assert (|amounts| - 1) as real == n - 1.0;
    CutBound(n, m, ss, Square(amounts[i] - m));
  }

  lemma SquareOfCut()
    ensures Square(MAX_CV_FOR_SYSTEMATIC) == 0.09
  {
  }

  lemma PositiveQuotient(m: real, n: real)
    requires n > 0.0 && m * n > 0.0
    ensures m > 0.0
  {
  }

  lemma CutBound(n: real, m: real, ss: real, dev: real)
    requires n > 1.0 && m > 0.0 && n * dev <= (n - 1.0) * ss
    requires Square(m) > 0.0 && Ratio(ss, n - 1.0, Square(m)) < 0.09
    ensures n * dev < 0.09 * (Square(n - 1.0) * Square(m))
  {
    var k, z := n - 1.0, Square(m);
    SquarePositive(m);
    SquarePositive(k);
    var v := ss / k;
    var cv := v / z;
    assert v == cv * z && ss == k * v;
    assert v < 0.09 * z by { assert (0.09 - cv) * z > 0.0; }
    var kk := Square(k);
    assert k * ss == kk * v;
    hide Square;
    assert kk * v < kk * (0.09 * z) by { assert kk * (0.09 * z - v) > 0.0; }
    assert kk * (0.09 * z) == 0.09 * (kk * z);
  }

  // ----- What a pattern says -----

  /** The result supports patterns of this domain, plan and direction: a mismatch whose variance has the sign. */
  predicate Supports(domain: string, plan: string, d: Direction, r: ReconciliationResult) {
    && r.suspectedDomain == domain && r.planCode == plan && r.category != "MATCH"
    && (d == Positive ==> r.varianceAmount > 0.0) && (d == Negative ==> r.varianceAmount < 0.0)
  }

  function Supporters(results: Results, domain: string, plan: string, d: Direction): Results {
    Filter(results, (r: ReconciliationResult) => Supports(domain, plan, d, r))
  }

  /** Their absolute variances, which have the sign's direction. */
  function Sizes(d: Direction, sub: Results): seq<real> {
    Map(sub, (r: ReconciliationResult) => if d == Positive then r.varianceAmount else -r.varianceAmount)
  }

  lemma SupportersAreSubgroup(results: Results, domain: string, plan: string, d: Direction)
    ensures Supporters(results, domain, plan, d) == Subgroup(results, Key(domain, plan), d)
    ensures Sizes(d, Supporters(results, domain, plan, d)) == Map(Subgroup(results, Key(domain, plan), d), Amount)
  {
    var sub := Subgroup(results, Key(domain, plan), d);
    FilterSame(results, (r: ReconciliationResult) => Supports(domain, plan, d, r), Belongs(Key(domain, plan), d));
    FilterMembers(results, Belongs(Key(domain, plan), d));
    hide Filter, Map;
    forall i | 0 <= i < |sub|
      ensures HasSign(d, sub[i])
    {
      assert sub[i] in sub;
    }
  }

  /** Five supporters at least, scattered by less than 0.3 of their mean size: squared, and without a quotient. */
  ghost predicate TightlyClustered(sizes: seq<real>) {
    && |sizes| >= 5
    && SumSqDev(sizes, Mean(sizes)) < 0.09 * Mul((|sizes| - 1) as real, Square(Mean(sizes)))
  }

  lemma {:induction false} SystematicMeans(sub: Results)
    requires sub != [] ==> Sum(Map(sub, Amount)) > 0.0
    ensures Systematic(sub) <==> TightlyClustered(Map(sub, Amount))
    ensures Systematic(sub) ==>
              var sizes := Map(sub, Amount);
              Mul(CvSquared(sizes), Mul((|sizes| - 1) as real, Square(Mean(sizes)))) == SumSqDev(sizes, Mean(sizes))
  {
    var sizes := Map(sub, Amount);
    hide Mean, SumSqDev, Square, Sum, Ratio, CvSquared, Map, Mul;
    if |sizes| >= 5 {
      var m := Mean(sizes);
      MeanIsPositive(sizes);
      CvUnfolds(sizes, m, SumSqDev(sizes, m));
      SquareOfCut();
      RatioBelow(SumSqDev(sizes, m), (|sizes| - 1) as real, Square(m));
    }
  }

  lemma MeanIsPositive(xs: seq<real>)
    requires xs != [] && Sum(xs) > 0.0
    ensures Mean(xs) > 0.0
  {
    hide Mean, Sum;
    MeanTimesSize(xs);
    PositiveQuotient(Mean(xs), |xs| as real);
  }

  lemma RatioBelow(ss: real, k: real, z: real)
    requires k > 0.0 && z > 0.0
    ensures Ratio(ss, k, z) < 0.09 <==> ss < 0.09 * Mul(k, z)
    ensures Mul(Ratio(ss, k, z), Mul(k, z)) == ss
  {
    var v := ss / k;
    var cv := v / z;
    ProductPositive(k, z, k * z);
    assert cv * z == v && v * k == ss;
    assert cv * (k * z) == ss;
    var kz := k * z;
    assert (0.09 - cv) * kz == 0.09 * kz - ss;
    if cv < 0.09 {
      ProductPositive(0.09 - cv, kz, (0.09 - cv) * kz);
    } else if cv > 0.09 {
      ProductPositive(cv - 0.09, kz, (cv - 0.09) * kz);
    }
  }

  /** Size, mean and squared variation of a sample, stated without a quotient. */
  ghost predicate Measures(sizes: seq<real>, count: nat, mean: real, cvSquared: real) {
    && count == |sizes| && Mul(mean, count as real) == Sum(sizes)
    && Mul(cvSquared, Mul((count - 1) as real, Square(mean))) == SumSqDev(sizes, mean)
  }

  ghost predicate SaysOf(p: Pattern, sub: Results, sizes: seq<real>) {
    && p.affectedMembers == Map(sub, (r: ReconciliationResult) => r.memberId)
    && p.memberCount == |p.affectedMembers| >= 5
    && Measures(sizes, p.memberCount, p.meanVariance, p.cvSquared)
    && p.patternId
       == p.suspectedDomain + "_" + p.planCode + "_" + (if p.direction == Positive then "positive" else "negative")
  }

  lemma {:induction false} PatternSaysOf(key: Key, d: Direction, sub: Results)
    requires Systematic(sub) && Sum(Map(sub, Amount)) > 0.0
    ensures SaysOf(PatternFrom(key, d, sub), sub, Map(sub, Amount))
  {
    SystematicMeasures(sub);
    IdsMapped(sub);
    hide Sum, Mean, CvSquared, Map, Measures;
  }

  lemma {:induction false} SystematicMeasures(sub: Results)
    requires Systematic(sub) && Sum(Map(sub, Amount)) > 0.0
    ensures var sizes := Map(sub, Amount); Measures(sizes, |sub|, Mean(sizes), CvSquared(sizes))
  {
    hide Sum, SumSqDev, Square, Mean, CvSquared, Ratio, TightlyClustered, Map, Mul;
    SystematicMeans(sub);
    MeanAsProduct(Map(sub, Amount));
  }

  lemma MeanAsProduct(xs: seq<real>)
    requires xs != []
    ensures Mul(Mean(xs), |xs| as real) == Sum(xs)
  {
    hide Mean, Sum;
    MeanTimesSize(xs);
  }

  /** Every emitted pattern says the truth about the results of its domain, plan and sign. */
  lemma PatternsSayTrue(results: Results, p: Pattern)
    requires p in Detect(results)
    ensures var sub := Supporters(results, p.suspectedDomain, p.planCode, p.direction);
            SaysOf(p, sub, Sizes(p.direction, sub))
  {
    hide Detect, Supporters, Sizes, Sum, Systematic, SaysOf, PatternFrom;
    var key := Key(p.suspectedDomain, p.planCode);
    var sub := Subgroup(results, key, p.direction);
    DetectIsExact(results);
    SupportersAreSubgroup(results, p.suspectedDomain, p.planCode, p.direction);
    SubgroupMembers(results, key, p.direction);
    NotEmpty(sub);
    hide Subgroup;
    PatternSaysOf(key, p.direction, sub);
  }

  lemma NotEmpty(sub: Results)
    ensures Systematic(sub) ==> sub != []
  {
  }

  lemma IdsMapped(sub: Results)
    ensures Map(sub, Id) == Map(sub, (r: ReconciliationResult) => r.memberId)
  {
    hide Map;
  }

  /** And a domain, plan and sign has a pattern if and only if its supporters are tightly clustered. */
  lemma {:induction false} EmittedIff(results: Results, domain: string, plan: string, d: Direction)
    ensures (exists p :: p in Detect(results) && p.suspectedDomain == domain && p.planCode == plan && p.direction == d)
            <==> TightlyClustered(Sizes(d, Supporters(results, domain, plan, d)))
  {
    var key := Key(domain, plan);
    var sub := Subgroup(results, key, d);
    DetectIsExact(results);
    SupportersAreSubgroup(results, domain, plan, d);
    SubgroupMembers(results, key, d);
    SystematicMeans(sub);
    hide Detect, Subgroup, Supporters, Sizes, Systematic, TightlyClustered, Sum;
    if Systematic(sub) {
      assert PatternFrom(key, d, sub) in Detect(results);
    }
  }

  // ----- Scaling -----

  function ScaledBy(k: real): ReconciliationResult -> ReconciliationResult {
    (r: ReconciliationResult) => r.(varianceAmount := Mul(k, r.varianceAmount))
  }

  function ScalePattern(k: real): Pattern -> Pattern {
    (p: Pattern) => p.(meanVariance := Mul(k, p.meanVariance))
  }

  lemma ScaledSign(k: real, v: real)
    requires k > 0.0
    ensures (k * v > 0.0 <==> v > 0.0) && (k * v < 0.0 <==> v < 0.0)
  {
    if v > 0.0 {
      assert k * v > 0.0;
    } else if v < 0.0 {
      assert k * (-v) > 0.0 && k * (-v) == -(k * v);
    }
  }

  lemma SubgroupScaled(results: Results, key: Key, d: Direction, k: real)
    requires k > 0.0
    ensures Subgroup(Map(results, ScaledBy(k)), key, d) == Map(Subgroup(results, key, d), ScaledBy(k))
  {
    forall r
      ensures Belongs(key, d)(ScaledBy(k)(r)) == Belongs(key, d)(r)
    {
      ScaledSign(k, r.varianceAmount);
    }
    FilterMap(results, ScaledBy(k), Belongs(key, d), Belongs(key, d));
  }

  lemma {:induction false} KeysScaled(results: Results, k: real)
    ensures Keys(Map(results, ScaledBy(k))) == Keys(results)
  {
    if results != [] {
      KeysScaled(Init(results), k);
      assert Init(Map(results, ScaledBy(k))) == Map(Init(results), ScaledBy(k));
    }
  }

  lemma AmountsScaled(sub: Results, k: real)
    requires k > 0.0
    ensures Map(Map(sub, ScaledBy(k)), Amount) == Map(Map(sub, Amount), Times(k))
  {
    hide Abs, Mul;
    var left, right := Map(Map(sub, ScaledBy(k)), Amount), Map(Map(sub, Amount), Times(k));
    assert |left| == |right| == |sub|;
    forall i | 0 <= i < |sub|
      ensures left[i] == right[i]
    {
      AbsScaled(k, sub[i].varianceAmount);
      assert Map(sub, ScaledBy(k))[i] == ScaledBy(k)(sub[i]);
      assert Map(sub, Amount)[i] == Amount(sub[i]);
    }
  }

  lemma AbsScaled(k: real, v: real)
    requires k > 0.0
    ensures Abs(Mul(k, v)) == Mul(k, Abs(v))
  {
    ScaledSign(k, v);
    assert k * (-v) == -(k * v);
  }

  lemma SpreadScaled(amounts: seq<real>, k: real, scaled: seq<real>)
    requires k > 0.0 && amounts != [] && scaled == Map(amounts, Times(k))
    ensures Mean(scaled) == Mul(k, Mean(amounts)) && (Mean(scaled) == 0.0 <==> Mean(amounts) == 0.0)
    ensures SumSqDev(scaled, Mean(scaled)) == Mul(Square(k), SumSqDev(amounts, Mean(amounts)))
  {
    hide Mean, SumSqDev, Square;
    MeanScaled(amounts, k);
    SumSqDevScaled(amounts, Mean(amounts), k, Mean(scaled), scaled);
    ScaledSign(k, Mean(amounts));
  }

  lemma CvUnfolds(amounts: seq<real>, m: real, ss: real)
    requires |amounts| >= 2 && m == Mean(amounts) && m != 0.0 && ss == SumSqDev(amounts, m)
    ensures Square(m) > 0.0 && CvSquared(amounts) == Ratio(ss, (|amounts| - 1) as real, Square(m))
  {
    SquarePositive(m);
    hide Mean, SumSqDev, Square, Ratio;
  }

  lemma {:induction false} CvScaled(amounts: seq<real>, k: real, scaled: seq<real>)
    requires k > 0.0 && |amounts| >= 2 && scaled == Map(amounts, Times(k))
    requires Mean(amounts) != 0.0
    ensures Mean(scaled) != 0.0 && CvSquared(scaled) == CvSquared(amounts)
  {
    hide Mean, SumSqDev, Square, Ratio, CvSquared, Mul;
    SpreadScaled(amounts, k, scaled);
    var m, m', ss, ss' := Mean(amounts), Mean(scaled), SumSqDev(amounts, Mean(amounts)), SumSqDev(scaled, Mean(scaled));
    CvUnfolds(amounts, m, ss);
    CvUnfolds(scaled, m', ss');
    RatioScaled(ss, ss', (|amounts| - 1) as real, m, m', k);
  }

  lemma RatioScaled(ss: real, ss': real, n: real, m: real, m': real, k: real)
    requires k > 0.0 && n > 0.0 && m != 0.0 && m' == Mul(k, m) && ss' == Mul(Square(k), ss)
    ensures Square(m) > 0.0 && Square(m') > 0.0
    ensures Ratio(ss', n, Square(m')) == Ratio(ss, n, Square(m))
  {
    SquarePositive(m);
    SquarePositive(k);
    SquareOfProduct(k, m);
    ProductPositive(Square(k), Square(m), Square(m'));
    hide Square, Ratio;
    CancelFactor(Square(k), ss, ss', n, Square(m), Square(m'));
  }

  lemma SquareOfProduct(x: real, y: real)
    ensures Square(x * y) == Square(x) * Square(y)
  {
  }

  lemma CancelFactor(a: real, s: real, as': real, n: real, z: real, az: real)
    requires a > 0.0 && n > 0.0 && z > 0.0 && az > 0.0 && az == a * z && as' == a * s
    ensures Ratio(as', n, az) == Ratio(s, n, z)
  {
    var q := s / n / z;
    assert s / n == q * z;
    assert s == q * z * n;
    assert as' == (q * az) * n;
    assert as' / n == q * az;
  }

  lemma {:induction false} EmitScaled(results: Results, key: Key, d: Direction, k: real)
    requires k > 0.0
    ensures Emit(Map(results, ScaledBy(k)), key, d) == Map(Emit(results, key, d), ScalePattern(k))
  {
    var sub := Subgroup(results, key, d);
    SubgroupScaled(results, key, d, k);
    SystematicScaled(key, d, sub, k);
    hide Subgroup, Systematic, PatternFrom;
  }

  lemma {:induction false} SystematicScaled(key: Key, d: Direction, sub: Results, k: real)
    requires k > 0.0
    ensures var scaled := Map(sub, ScaledBy(k));
            && (Systematic(scaled) <==> Systematic(sub))
            && (Systematic(sub) ==> PatternFrom(key, d, scaled) == ScalePattern(k)(PatternFrom(key, d, sub)))
  {
    var scaled := Map(sub, ScaledBy(k));
    AmountsScaled(sub, k);
    assert Map(scaled, Id) == Map(sub, Id);
    hide Mean, CvSquared, Square, Amount, ScaledBy, Map, Mul;
    if |sub| >= MIN_MEMBERS_FOR_PATTERN {
      ClusterScaled(Map(sub, Amount), Map(scaled, Amount), k);
    }
  }

  lemma {:induction false} ClusterScaled(amounts: seq<real>, scaled: seq<real>, k: real)
    requires k > 0.0 && |amounts| >= 2 && scaled == Map(amounts, Times(k))
    ensures Mean(scaled) == Mul(k, Mean(amounts))
    ensures Mean(scaled) != 0.0 <==> Mean(amounts) != 0.0
    ensures Mean(amounts) != 0.0 ==> CvSquared(scaled) == CvSquared(amounts)
  {
    hide Mean, CvSquared, SumSqDev, Square, Mul;
    SpreadScaled(amounts, k, scaled);
    if Mean(amounts) != 0.0 {
      CvScaled(amounts, k, scaled);
    }
  }

  lemma {:induction false} EmitAllScaled(results: Results, keys: seq<Key>, k: real)
    requires k > 0.0
    ensures EmitAll(Map(results, ScaledBy(k)), keys) == Map(EmitAll(results, keys), ScalePattern(k))
  {
    hide Emit;
    if keys != [] {
      EmitAllScaled(results, Init(keys), k);
      EmitScaled(results, Last(keys), Positive, k);
      EmitScaled(results, Last(keys), Negative, k);
      var a := EmitAll(results, Init(keys));
      var b, c := Emit(results, Last(keys), Positive), Emit(results, Last(keys), Negative);
      MapConcat(a, b, ScalePattern(k));
      MapConcat(a + b, c, ScalePattern(k));
    }
  }

  /** Scaling every variance by the same positive factor scales the means and leaves the rest alone. */
  lemma {:induction false} DetectScaled(results: Results, k: real)
    requires k > 0.0
    ensures Detect(Map(results, ScaledBy(k))) == Map(Detect(results), ScalePattern(k))
  {
    KeysScaled(results, k);
    EmitAllScaled(results, Keys(results), k);
  }

  // ----- Order of the input -----

  /** The same pattern, up to the order in which members are listed. */
  ghost predicate SamePattern(p: Pattern, q: Pattern) {
    p.(affectedMembers := []) == q.(affectedMembers := [])
    && multiset(p.affectedMembers) == multiset(q.affectedMembers)
  }

  lemma {:induction false} SystematicPermuted(key: Key, d: Direction, sub: Results, sub': Results)
    requires multiset(sub) == multiset(sub') && Systematic(sub)
    ensures Systematic(sub') && SamePattern(PatternFrom(key, d, sub), PatternFrom(key, d, sub'))
  {
    hide Mean, SumSqDev, Square;
    SameLength(sub, sub');
    MapPermuted(sub, sub', Amount);
    MapPermuted(sub, sub', Id);
    var a, a' := Map(sub, Amount), Map(sub', Amount);
    MeanPermuted(a, a');
    SumSqDevPermuted(a, a', Mean(a));
    assert CvSquared(a) == CvSquared(a');
    hide CvSquared;
  }

  lemma {:induction false} PatternPermuted(results: Results, results': Results, p: Pattern)
    requires multiset(results) == multiset(results')
    ensures p in Detect(results) ==> exists q :: q in Detect(results') && SamePattern(p, q)
  {
    hide Systematic, Detect;
    DetectIsExact(results);
    DetectIsExact(results');
    if p in Detect(results) {
      var key := Key(p.suspectedDomain, p.planCode);
      var sub, sub' := Subgroup(results, key, p.direction), Subgroup(results', key, p.direction);
      FilterPermuted(results, results', Belongs(key, p.direction));
      SystematicPermuted(key, p.direction, sub, sub');
      assert PatternFrom(key, p.direction, sub') in Detect(results');
    }
  }

  /** Permuting the results leaves the patterns as they are, up to their order. */
  lemma {:induction false} DetectPermuted(results: Results, results': Results)
    requires multiset(results) == multiset(results')
    ensures forall p :: p in Detect(results) ==> exists q :: q in Detect(results') && SamePattern(p, q)
    ensures forall q :: q in Detect(results') ==> exists p :: p in Detect(results) && SamePattern(q, p)
  {
    hide Detect, SamePattern;
    forall p
      ensures p in Detect(results) ==> exists q :: q in Detect(results') && SamePattern(p, q)
      ensures p in Detect(results') ==> exists q :: q in Detect(results) && SamePattern(p, q)
    {
      PatternPermuted(results, results', p);
      PatternPermuted(results', results, p);
    }
  }
}
