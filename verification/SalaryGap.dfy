/**
 The salary gap check: per employee, consecutive slips must be consecutive months.
 The rows arrive ordered by employee, year and month.
 */
module SalaryGap {
  import opened Sequences

  datatype MonthKey = MonthKey(year: int, month: int)

  datatype Row = Row(name: string, month: MonthKey)

  /** The month the check expects next, with December's rollover. */
  function Expected(prev: MonthKey): MonthKey {
    var month := prev.month + 1;
    if month > 12 then MonthKey(prev.year + 1, 1) else MonthKey(prev.year, month)
  }

  function Index(m: MonthKey): int {
    12 * m.year + m.month
  }

  predicate ValidMonth(m: MonthKey) {
    1 <= m.month <= 12
  }

  /** For real months the rollover test is: month index plus one. */
  lemma RolloverIsNextIndex(prev: MonthKey, curr: MonthKey)
    requires ValidMonth(prev) && ValidMonth(curr)
    ensures curr == Expected(prev) <==> Index(curr) == Index(prev) + 1
  {
  }

  function Gaps(months: seq<MonthKey>): nat {
    if |months| < 2 then 0
    else Gaps(Init(months)) + if Last(months) != Expected(months[|months| - 2]) then 1 else 0
  }

  /** An employee's slips, in row order. */
  function MonthsOf(rows: seq<Row>, name: string): seq<MonthKey> {
    if rows == [] then []
    else MonthsOf(Init(rows), name) + if Last(rows).name == name then [Last(rows).month] else []
  }

  function GapsOf(rows: seq<Row>, name: string): nat {
    Gaps(MonthsOf(rows, name))
  }

  function Names(rows: seq<Row>): set<string> {
    set r | r in rows :: r.name
  }

  ghost function GapTotal(rows: seq<Row>, names: set<string>): nat
    decreases |names|
  {
    if names == {} then 0
    else
      var name :| name in names;
      GapsOf(rows, name) + GapTotal(rows, names - {name})
  }

  /** The total does not depend on which employee is counted first. */
  lemma {:induction false} GapTotalAnyOrder(rows: seq<Row>, names: set<string>, name: string)
    requires name in names
    ensures GapTotal(rows, names) == GapsOf(rows, name) + GapTotal(rows, names - {name})
    decreases |names|
  {
    hide GapsOf;
    var first :| first in names && GapTotal(rows, names) == GapsOf(rows, first) + GapTotal(rows, names - {first});
    if first != name {
      GapTotalAnyOrder(rows, names - {first}, name);
      GapTotalAnyOrder(rows, names - {name}, first);
      assert names - {first} - {name} == names - {name} - {first};
    }
  }

  // ----- The check -----

  type MonthMap = map<string, seq<MonthKey>>

  ghost predicate Collected(m: MonthMap, rows: seq<Row>) {
    forall name :: (name in m <==> MonthsOf(rows, name) != []) && (name in m ==> m[name] == MonthsOf(rows, name))
  }

  method Collect(rows: seq<Row>) returns (empMonths: MonthMap)
    ensures Collected(empMonths, rows)
  {
    empMonths := map[];
    for i := 0 to |rows|
      invariant Collected(empMonths, rows[..i])
    {
      var r := rows[i];
      assert Init(rows[..i + 1]) == rows[..i];
      var months := if r.name in empMonths then empMonths[r.name] else [];
      empMonths := empMonths[r.name := months + [r.month]];
    }
    assert rows[..|rows|] == rows;
  }

  datatype Gap = Gap(name: string, prev: MonthKey, curr: MonthKey)

  /** Position `i` of the employee's slips is the gap that `d` reports. */
  ghost predicate GapAt(months: seq<MonthKey>, i: int, d: Gap) {
    0 < i < |months| && d.prev == months[i - 1] && d.curr == months[i] && d.curr != Expected(d.prev)
  }

  /** The employee's gaps, oldest first. */
  function GapList(name: string, months: seq<MonthKey>): seq<Gap> {
    if |months| < 2 then []
    else
      var prev, curr := months[|months| - 2], Last(months);
      GapList(name, Init(months)) + if curr != Expected(prev) then [Gap(name, prev, curr)] else []
  }

  lemma OneMoreMonth(name: string, months: seq<MonthKey>, m: MonthKey)
    requires months != []
    ensures var gap := m != Expected(Last(months));
            && Gaps(months + [m]) == Gaps(months) + (if gap then 1 else 0)
            && GapList(name, months + [m]) == GapList(name, months) + if gap then [Gap(name, Last(months), m)] else []
  {
    assert Init(months + [m]) == months;
  }

  ghost predicate IsGap(name: string, months: seq<MonthKey>, d: Gap) {
    d.name == name && exists i :: GapAt(months, i, d)
  }

  lemma OneMoreGap(name: string, months: seq<MonthKey>, m: MonthKey, d: Gap)
    requires months != []
    ensures IsGap(name, months + [m], d)
            <==> IsGap(name, months, d) || (m != Expected(Last(months)) && d == Gap(name, Last(months), m))
  {
    hide Expected;
    var longer, n := months + [m], |months|;
    if i :| GapAt(longer, i, d) && i < n {
      assert GapAt(months, i, d);
    }
    if i :| GapAt(months, i, d) {
      assert GapAt(longer, i, d);
    }
    assert GapAt(longer, n, d) <==> d.prev == Last(months) && d.curr == m && m != Expected(Last(months));
  }

  /** As many are listed as there are gaps, and exactly the gaps. */
  lemma {:induction false} GapListIsExact(name: string, months: seq<MonthKey>)
    ensures |GapList(name, months)| == Gaps(months)
    ensures forall d :: d in GapList(name, months) <==> IsGap(name, months, d)
  {
    if |months| >= 2 {
      var before, m := Init(months), Last(months);
      GapListIsExact(name, before);
      OneMoreMonth(name, before, m);
      assert months == before + [m];
      hide GapList, Gaps, IsGap, Expected;
      forall d
        ensures d in GapList(name, months) <==> IsGap(name, months, d)
      {
        OneMoreGap(name, before, m, d);
      }
    }
  }

  method CountGaps(name: string, months: seq<MonthKey>) returns (gaps: nat, details: seq<Gap>)
    ensures gaps == Gaps(months) && details == GapList(name, months)
  {
    gaps, details := 0, [];
    if |months| < 2 {
      return;
    }
    assert Gaps(months[..1]) == 0 && GapList(name, months[..1]) == [];
    hide Gaps, GapList, Expected;
    for i := 1 to |months|
      invariant gaps == Gaps(months[..i]) && details == GapList(name, months[..i])
    {
      OneMoreMonth(name, months[..i], months[i]);
      assert months[..i + 1] == months[..i] + [months[i]];
      if months[i] != Expected(months[i - 1]) {
        details := details + [Gap(name, months[i - 1], months[i])];
        gaps := gaps + 1;
      }
    }
    assert months[..|months|] == months;
  }

  /** The details that name one employee. */
  function DetailsOf(details: seq<Gap>, name: string): seq<Gap> {
    if details == [] then []
    else
      var before, d := DetailsOf(Init(details), name), Last(details);
      if d.name == name then before + [d] else before
  }

  lemma {:induction false} DetailsConcat(xs: seq<Gap>, ys: seq<Gap>, name: string)
    ensures DetailsOf(xs + ys, name) == DetailsOf(xs, name) + DetailsOf(ys, name)
  {
    if ys == [] {
      assert xs + ys == xs;
    } else {
      assert Init(xs + ys) == xs + Init(ys);
      DetailsConcat(xs, Init(ys), name);
    }
  }

  lemma {:induction false} DetailsOfOne(ds: seq<Gap>, owner: string, name: string)
    requires forall k :: 0 <= k < |ds| ==> ds[k].name == owner
    ensures DetailsOf(ds, name) == if name == owner then ds else []
  {
    if ds != [] {
      var before, d := Init(ds), Last(ds);
      DetailsOfOne(before, owner, name);
      assert d.name == owner;
      assert DetailsOf(ds, name) == if d.name == name then DetailsOf(before, name) + [d] else DetailsOf(before, name);
      hide DetailsOf;
      assert ds == before + [d];
    }
  }

  /** Every employee's gaps are listed, oldest first and nothing else, except for those in `rest`. */
  ghost predicate ListsAllBut(rows: seq<Row>, details: seq<Gap>, rest: set<string>) {
    forall name :: DetailsOf(details, name) == if name in rest then [] else GapList(name, MonthsOf(rows, name))
  }

  lemma NothingListed(rows: seq<Row>)
    ensures ListsAllBut(rows, [], Names(rows))
  {
    NamesHaveMonths(rows);
  }

  lemma OneMoreEmployee(rows: seq<Row>, details: seq<Gap>, rest: set<string>, owner: string)
    requires owner in rest && ListsAllBut(rows, details, rest)
    ensures ListsAllBut(rows, details + GapList(owner, MonthsOf(rows, owner)), rest - {owner})
  {
    var found := GapList(owner, MonthsOf(rows, owner));
    GapListIsExact(owner, MonthsOf(rows, owner));
    hide GapList, MonthsOf, DetailsOf;
    forall k | 0 <= k < |found|
      ensures found[k].name == owner
    {
      assert found[k] in found;
    }
    forall name
      ensures DetailsOf(details + found, name)
              == if name in rest - {owner} then [] else GapList(name, MonthsOf(rows, name))
    {
      DetailsConcat(details, found, name);
      DetailsOfOne(found, owner, name);
      assert [] + found == found && DetailsOf(details, name) + [] == DetailsOf(details, name);
    }
  }

  lemma CollectedNames(m: MonthMap, rows: seq<Row>)
    requires Collected(m, rows)
    ensures m.Keys == Names(rows)
    ensures forall name :: name in m ==> m[name] == MonthsOf(rows, name)
  {
    NamesHaveMonths(rows);
  }

  /** Walks the employees in whatever order the map gives them. */
  method SalaryGapCheck(rows: seq<Row>) returns (gapCount: nat, details: seq<Gap>)
    ensures gapCount == GapTotal(rows, Names(rows)) == |details|
    ensures forall name :: DetailsOf(details, name) == GapList(name, MonthsOf(rows, name))
    ensures AllMonthsValid(rows) ==> forall d :: d in details <==> IsRowGap(rows, d)
    ensures AllMonthsValid(rows) && RowsInOrder(rows) ==>
              (gapCount == 0 <==> forall name :: name in Names(rows) ==> RowsCoverOnce(rows, name))
  {
    hide GapTotal, Gaps, GapList, MonthsOf, Names, DetailsOf, Collected;
    var empMonths := Collect(rows);
    CollectedNames(empMonths, rows);
    NothingListed(rows);
    gapCount, details := 0, [];
    var rest := empMonths.Keys;
    while rest != {}
      invariant rest <= empMonths.Keys
      invariant gapCount + GapTotal(rows, rest) == GapTotal(rows, Names(rows))
      invariant gapCount == |details| && ListsAllBut(rows, details, rest)
      decreases rest
    {
      hide ListsAllBut;
      var name :| name in rest;
      GapTotalAnyOrder(rows, rest, name);
      OneMoreEmployee(rows, details, rest, name);
      GapListIsExact(name, empMonths[name]);
      rest := rest - {name};
      var gaps, found := CountGaps(name, empMonths[name]);
      gapCount := gapCount + gaps;
      details := details + found;
    }
    NobodyLeft(rows);
    hide AllMonthsValid, IsRowGap, RowsInOrder, RowsCoverOnce;
    if AllMonthsValid(rows) {
      DetailsAreRowGaps(rows, details);
      if RowsInOrder(rows) {
        NoGapsIffRowsCoverOnce(rows);
      }
    }
  }

  lemma {:induction false} InDetailsOf(details: seq<Gap>, d: Gap)
    ensures d in details <==> d in DetailsOf(details, d.name)
  {
    if details != [] {
      InDetailsOf(Init(details), d);
      assert d in details <==> d in Init(details) || d == Last(details);
    }
  }

  lemma DetailsAreRowGaps(rows: seq<Row>, details: seq<Gap>)
    requires AllMonthsValid(rows)
    requires forall name :: DetailsOf(details, name) == GapList(name, MonthsOf(rows, name))
    ensures forall d :: d in details <==> IsRowGap(rows, d)
  {
    forall d
      ensures d in details <==> IsRowGap(rows, d)
    {
      hide DetailsOf, GapList, MonthsOf, IsRowGap, AllMonthsValid;
      InDetailsOf(details, d);
      GapsAreRowGaps(rows, d.name, d);
    }
  }

  lemma NobodyLeft(rows: seq<Row>)
    ensures GapTotal(rows, {}) == 0
  {
  }

  lemma {:induction false} NamesHaveMonths(rows: seq<Row>)
    ensures forall name :: name in Names(rows) <==> MonthsOf(rows, name) != []
  {
    if rows != [] {
      NamesHaveMonths(Init(rows));
      assert forall r :: r in rows <==> r in Init(rows) || r == Last(rows);
      assert Names(rows) == Names(Init(rows)) + {Last(rows).name};
    }
  }

  /** Only each employee's own sequence matters, not how the employees' rows are interleaved. */
  lemma InterleavingIrrelevant(rows: seq<Row>, rows': seq<Row>)
    requires forall name :: MonthsOf(rows, name) == MonthsOf(rows', name)
    ensures GapTotal(rows, Names(rows)) == GapTotal(rows', Names(rows'))
  {
    NamesHaveMonths(rows);
    NamesHaveMonths(rows');
    assert Names(rows) == Names(rows');
    SameTotals(rows, rows', Names(rows));
  }

  lemma {:induction false} SameTotals(rows: seq<Row>, rows': seq<Row>, names: set<string>)
    requires forall name :: MonthsOf(rows, name) == MonthsOf(rows', name)
    ensures GapTotal(rows, names) == GapTotal(rows', names)
    decreases |names|
  {
    if names != {} {
      var name :| name in names;
      GapTotalAnyOrder(rows, names, name);
      GapTotalAnyOrder(rows', names, name);
      SameTotals(rows, rows', names - {name});
    }
  }

  /** The check passes everyone exactly when it passes each employee. */
  lemma {:induction false} NoGapsIff(rows: seq<Row>, names: set<string>)
    ensures GapTotal(rows, names) == 0 <==> forall name :: name in names ==> GapsOf(rows, name) == 0
    decreases |names|
  {
    hide GapsOf;
    if names != {} {
      var name :| name in names;
      GapTotalAnyOrder(rows, names, name);
      NoGapsIff(rows, names - {name});
      assert forall n :: n in names <==> n == name || n in names - {name};
    }
  }

  // ----- What no gaps means -----

  ghost predicate AllValid(months: seq<MonthKey>) {
    forall i :: 0 <= i < |months| ==> ValidMonth(months[i])
  }

  lemma {:induction false} NoGapsMeansConsecutive(months: seq<MonthKey>)
    requires AllValid(months)
    ensures Gaps(months) == 0 <==> forall i :: 0 <= i < |months| ==> Index(months[i]) == Index(months[0]) + i
  {
    if |months| >= 2 {
      NoGapsMeansConsecutive(Init(months));
      var n := |months| - 1;
      RolloverIsNextIndex(months[n - 1], months[n]);
      assert forall i :: 0 <= i < n ==> Init(months)[i] == months[i];
      hide Index, Expected;
    }
  }

  /** Rows come in month order. */
  ghost predicate InOrder(months: seq<MonthKey>) {
    forall i, j :: 0 <= i < j < |months| ==> Index(months[i]) <= Index(months[j])
  }

  ghost predicate Occurs(months: seq<MonthKey>, k: int) {
    exists i :: 0 <= i < |months| && Index(months[i]) == k
  }

  /** Every month from the first to the last occurs, and none twice. */
  ghost predicate CoversOnce(months: seq<MonthKey>)
    requires months != []
  {
    && (forall k :: Index(months[0]) <= k <= Index(Last(months)) ==> Occurs(months, k))
    && (forall i, j :: 0 <= i < j < |months| ==> Index(months[i]) != Index(months[j]))
  }

  /** The check is exact: no gaps, if and only if the slips cover every month once. */
  lemma NoGapsIffCoversOnce(months: seq<MonthKey>)
    requires months != [] && AllValid(months) && InOrder(months)
    ensures Gaps(months) == 0 <==> CoversOnce(months)
  {
    NoGapsMeansConsecutive(months);
    if Gaps(months) == 0 {
      forall k | Index(months[0]) <= k <= Index(Last(months))
        ensures Occurs(months, k)
      {
        var i := k - Index(months[0]);
        assert Index(months[i]) == k;
      }
    }
    if CoversOnce(months) {
      CoveringIsConsecutive(months, |months|);
    }
  }

  lemma {:induction false} CoveringIsConsecutive(months: seq<MonthKey>, n: nat)
    requires months != [] && InOrder(months) && CoversOnce(months) && n <= |months|
    ensures forall i :: 0 <= i < n ==> Index(months[i]) == Index(months[0]) + i
  {
    hide Index;
    if n > 1 {
      CoveringIsConsecutive(months, n - 1);
      var k := Index(months[0]) + (n - 1);
      assert Index(months[n - 2]) == k - 1;
      assert Index(months[n - 1]) >= k && Index(months[n - 1]) <= Index(Last(months));
      assert Occurs(months, k);
      var i :| 0 <= i < |months| && Index(months[i]) == k;
      assert i >= n - 1;
    }
  }

  // ----- The same over the rows themselves -----

  /** Where the employee's rows are. */
  function Positions(rows: seq<Row>, name: string): seq<nat> {
    if rows == [] then []
    else
      var before := Positions(Init(rows), name);
      if Last(rows).name == name then before + [|rows| - 1] else before
  }

  predicate IsOf(rows: seq<Row>, name: string, i: int) {
    0 <= i < |rows| && rows[i].name == name
  }

  /** The slips are the months of the employee's rows, in row order. */
  lemma {:induction false} MonthsAtPositions(rows: seq<Row>, name: string)
    ensures var ps := Positions(rows, name);
            && |ps| == |MonthsOf(rows, name)|
            && (forall k :: 0 <= k < |ps| ==> IsOf(rows, name, ps[k]) && MonthsOf(rows, name)[k] == rows[ps[k]].month)
            && (forall k, l :: 0 <= k < l < |ps| ==> ps[k] < ps[l])
            && (forall i :: IsOf(rows, name, i) ==> i in ps)
  {
    if rows != [] {
      var before, n := Init(rows), |rows| - 1;
      MonthsAtPositions(before, name);
      var ps := Positions(before, name);
      assert forall k :: 0 <= k < |ps| ==> IsOf(before, name, ps[k]);
      forall i | IsOf(rows, name, i)
        ensures i in Positions(rows, name)
      {
        if i < n {
          assert IsOf(before, name, i);
        }
      }
    }
  }

  /** Rows `i` and `j` are the employee's, with none of theirs between. */
  ghost predicate Neighbours(rows: seq<Row>, name: string, i: int, j: int) {
    IsOf(rows, name, i) && IsOf(rows, name, j) && i < j && forall k :: i < k < j ==> !IsOf(rows, name, k)
  }

  lemma NeighboursArePositions(rows: seq<Row>, name: string, k: nat)
    requires k + 1 < |Positions(rows, name)|
    ensures Neighbours(rows, name, Positions(rows, name)[k], Positions(rows, name)[k + 1])
  {
    MonthsAtPositions(rows, name);
    var ps := Positions(rows, name);
    hide Positions, MonthsOf;
    forall i | IsOf(rows, name, i)
      ensures i <= ps[k] || i >= ps[k + 1]
    {
      var l :| 0 <= l < |ps| && ps[l] == i;
      assert l <= k || l >= k + 1;
    }
  }

  lemma PositionOf(rows: seq<Row>, name: string, i: int, j: int) returns (k: nat)
    requires Neighbours(rows, name, i, j)
    ensures k + 1 < |Positions(rows, name)| && Positions(rows, name)[k] == i && Positions(rows, name)[k + 1] == j
  {
    MonthsAtPositions(rows, name);
    var ps := Positions(rows, name);
    hide Positions, MonthsOf;
    k :| 0 <= k < |ps| && ps[k] == i;
    var l :| 0 <= l < |ps| && ps[l] == j;
    assert k < l;
    assert IsOf(rows, name, ps[k + 1]);
  }

  ghost predicate AllMonthsValid(rows: seq<Row>) {
    forall i :: 0 <= i < |rows| ==> ValidMonth(rows[i].month)
  }

  /** Two neighbouring rows of one employee are not one month apart, and `d` says so. */
  ghost predicate IsRowGap(rows: seq<Row>, d: Gap) {
    exists i, j ::
      && Neighbours(rows, d.name, i, j) && d.prev == rows[i].month && d.curr == rows[j].month
      && Index(d.curr) != Index(d.prev) + 1
  }

  /** An employee's gaps are those between neighbouring rows. */
  lemma GapsAreRowGaps(rows: seq<Row>, name: string, d: Gap)
    requires AllMonthsValid(rows)
    ensures d in GapList(name, MonthsOf(rows, name)) <==> d.name == name && IsRowGap(rows, d)
  {
    var months, ps := MonthsOf(rows, name), Positions(rows, name);
    GapListIsExact(name, months);
    MonthsAtPositions(rows, name);
    hide GapList, MonthsOf, Positions, Expected, Index;
    if IsGap(name, months, d) {
      var k :| GapAt(months, k, d);
      NeighboursArePositions(rows, name, k - 1);
      RolloverIsNextIndex(months[k - 1], months[k]);
      assert Neighbours(rows, d.name, ps[k - 1], ps[k]);
    }
    if d.name == name && IsRowGap(rows, d) {
      var i, j :| && Neighbours(rows, d.name, i, j) && d.prev == rows[i].month && d.curr == rows[j].month
                  && Index(d.curr) != Index(d.prev) + 1;
      var k := PositionOf(rows, name, i, j);
      RolloverIsNextIndex(months[k], months[k + 1]);
      assert GapAt(months, k + 1, d);
    }
  }

  /** Each employee's rows are in month order. */
  ghost predicate RowsInOrder(rows: seq<Row>) {
    forall i, j :: 0 <= i < j < |rows| && rows[i].name == rows[j].name ==> Index(rows[i].month) <= Index(rows[j].month)
  }

  /** Every month between two of the employee's rows is that of some row of theirs, and of one only. */
  ghost predicate RowsCoverOnce(rows: seq<Row>, name: string) {
    && (forall i, j, m ::
          IsOf(rows, name, i) && IsOf(rows, name, j) && Index(rows[i].month) <= m <= Index(rows[j].month)
          ==> HasMonth(rows, name, m))
    && (forall i, j :: IsOf(rows, name, i) && IsOf(rows, name, j) && i < j ==>
          Index(rows[i].month) != Index(rows[j].month))
  }

  ghost predicate HasMonth(rows: seq<Row>, name: string, m: int) {
    exists k :: IsOf(rows, name, k) && Index(rows[k].month) == m
  }

  lemma HasMonthMeans(rows: seq<Row>, name: string, m: int)
    ensures HasMonth(rows, name, m) <==> Occurs(MonthsOf(rows, name), m)
  {
    MonthsAtPositions(rows, name);
    var ps := Positions(rows, name);
    hide Positions, MonthsOf, Index;
    if k :| IsOf(rows, name, k) && Index(rows[k].month) == m {
      var l :| 0 <= l < |ps| && ps[l] == k;
    }
  }

  lemma CoversOnceMeans(rows: seq<Row>, name: string)
    requires MonthsOf(rows, name) != [] && InOrder(MonthsOf(rows, name))
    ensures CoversOnce(MonthsOf(rows, name)) <==> RowsCoverOnce(rows, name)
  {
    var months, ps := MonthsOf(rows, name), Positions(rows, name);
    MonthsAtPositions(rows, name);
    forall m
      ensures HasMonth(rows, name, m) <==> Occurs(months, m)
    {
      HasMonthMeans(rows, name, m);
    }
    hide Positions, MonthsOf, Index, Occurs, HasMonth;
    if CoversOnce(months) {
      forall i, j | IsOf(rows, name, i) && IsOf(rows, name, j)
        ensures i < j ==> Index(rows[i].month) != Index(rows[j].month)
        ensures Index(months[0]) <= Index(rows[i].month) <= Index(Last(months))
      {
        var k :| 0 <= k < |ps| && ps[k] == i;
        var l :| 0 <= l < |ps| && ps[l] == j;
      }
    }
    if RowsCoverOnce(rows, name) {
      assert IsOf(rows, name, ps[0]) && IsOf(rows, name, Last(ps));
    }
  }

  lemma SlipsInOrder(rows: seq<Row>, name: string)
    requires AllMonthsValid(rows) && RowsInOrder(rows)
    ensures AllValid(MonthsOf(rows, name)) && InOrder(MonthsOf(rows, name))
  {
    MonthsAtPositions(rows, name);
    hide Positions, MonthsOf, Index;
  }

  /** The whole check: no gap is counted if and only if each employee's rows cover every month once. */
  lemma NoGapsIffRowsCoverOnce(rows: seq<Row>)
    requires AllMonthsValid(rows) && RowsInOrder(rows)
    ensures GapTotal(rows, Names(rows)) == 0 <==> forall name :: name in Names(rows) ==> RowsCoverOnce(rows, name)
  {
    NoGapsIff(rows, Names(rows));
    NamesHaveMonths(rows);
    forall name | name in Names(rows)
      ensures GapsOf(rows, name) == 0 <==> RowsCoverOnce(rows, name)
    {
      hide Names, RowsCoverOnce, Gaps, RowsInOrder, AllMonthsValid;
      SlipsInOrder(rows, name);
      NoGapsIffCoversOnce(MonthsOf(rows, name));
      CoversOnceMeans(rows, name);
    }
    hide RowsCoverOnce, GapsOf, GapTotal;
  }
}
