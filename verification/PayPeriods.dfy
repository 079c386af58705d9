/**
 The biweekly pay calendar and the contribution history built on it.  Dates are day
 numbers (proleptic ordinals); money is exact reals rounded to cents where the
 generator rounds.
 */
module PayPeriods {
  import opened Rounding
  import opened Sequences

  /** 3 January 1992. */
  const PAY_EPOCH := 727200
  const BIWEEKLY_DAYS := 14

  predicate Aligned(day: int) {
    (day - PAY_EPOCH) % BIWEEKLY_DAYS == 0
  }

  /** A whole number of two-week steps from 3 January 1992, either way. */
  lemma AlignedMeans(day: int)
    ensures Aligned(day) <==> exists steps: int :: day == 727200 + 14 * steps
  {
    if Aligned(day) {
      assert day == 727200 + 14 * ((day - 727200) / 14);
    }
  }

  /** Exactly the aligned days after `start` up to and including `end`, two weeks apart. */
  ghost predicate IsCalendar(periods: seq<int>, start: int, end: int) {
    && (forall d :: d in periods <==> start < d <= end && Aligned(d))
    && (forall i :: 0 < i < |periods| ==> periods[i] == periods[i - 1] + BIWEEKLY_DAYS)
  }

  method GetPayPeriods(start: int, end: int) returns (periods: seq<int>)
    ensures IsCalendar(periods, start, end)
  {
    var daysSinceEpoch := start - PAY_EPOCH;
    var periodsSince := daysSinceEpoch / BIWEEKLY_DAYS;   // floors, also before the epoch
    var firstPeriodEnd := PAY_EPOCH + (periodsSince + 1) * BIWEEKLY_DAYS;
    if firstPeriodEnd < start {
      firstPeriodEnd := firstPeriodEnd + BIWEEKLY_DAYS;
    }
    assert start < firstPeriodEnd <= start + BIWEEKLY_DAYS && Aligned(firstPeriodEnd);
    periods := [];
    var current := firstPeriodEnd;
    while current <= end
      invariant Aligned(current) && current > start
      invariant forall d :: d in periods <==> start < d <= end && d < current && Aligned(d)
      invariant forall i :: 0 < i < |periods| ==> periods[i] == periods[i - 1] + BIWEEKLY_DAYS
      invariant periods == [] ==> current == firstPeriodEnd
      invariant periods != [] ==> Last(periods) == current - BIWEEKLY_DAYS
      decreases end - current
    {
      NextAligned(current);
      periods := periods + [current];
      current := current + BIWEEKLY_DAYS;
    }
  }

  /** Between two neighbouring aligned days there is none. */
  lemma NextAligned(d: int)
    requires Aligned(d)
    ensures Aligned(d + BIWEEKLY_DAYS)
    ensures forall e :: d < e < d + BIWEEKLY_DAYS ==> !Aligned(e)
  {
  }

  /** A day that would continue the calendar is not in it. */
  lemma PastTheEnd(xs: seq<int>)
    requires xs != [] && forall i :: 0 < i < |xs| ==> xs[i] == xs[i - 1] + BIWEEKLY_DAYS
    ensures xs[0] + BIWEEKLY_DAYS * |xs| !in xs
  {
    Steps(xs);
  }

  lemma NotLonger(xs: seq<int>, ys: seq<int>, start: int, end: int)
    requires IsCalendar(xs, start, end) && IsCalendar(ys, start, end)
    requires xs != [] && ys != [] && xs[0] == ys[0]
    ensures |ys| <= |xs|
  {
    if |xs| < |ys| {
      Within(ys, |xs|);
      PastTheEnd(xs);
    }
  }

  lemma Within(xs: seq<int>, k: nat)
    requires k < |xs| && forall i :: 0 < i < |xs| ==> xs[i] == xs[i - 1] + BIWEEKLY_DAYS
    ensures xs[0] + BIWEEKLY_DAYS * k in xs
  {
    Steps(xs);
    assert xs[k] in xs;
  }

  /** The calendar is determined by its two dates. */
  lemma CalendarUnique(xs: seq<int>, ys: seq<int>, start: int, end: int)
    requires IsCalendar(xs, start, end) && IsCalendar(ys, start, end)
    ensures xs == ys
  {
    SomeInBoth(xs, ys, start, end);
    SomeInBoth(ys, xs, start, end);
    if xs != [] {
      LeastFirst(xs);
      LeastFirst(ys);
      NotLonger(xs, ys, start, end);
      NotLonger(ys, xs, start, end);
      Steps(xs);
      Steps(ys);
    }
  }

  lemma SomeInBoth(xs: seq<int>, ys: seq<int>, start: int, end: int)
    requires IsCalendar(xs, start, end) && IsCalendar(ys, start, end)
    ensures xs != [] ==> ys != [] && xs[0] in ys
  {
    if xs != [] {
      assert xs[0] in xs;
    }
  }

  lemma {:induction false} Steps(xs: seq<int>)
    requires xs != [] && forall i :: 0 < i < |xs| ==> xs[i] == xs[i - 1] + BIWEEKLY_DAYS
    ensures forall i :: 0 <= i < |xs| ==> xs[i] == xs[0] + BIWEEKLY_DAYS * i
  {
    if |xs| > 1 {
      Steps(Init(xs));
      assert forall i :: 0 <= i < |xs| - 1 ==> Init(xs)[i] == xs[i];
      assert xs[|xs| - 1] == xs[|xs| - 2] + BIWEEKLY_DAYS;
    }
  }

  lemma LeastFirst(xs: seq<int>)
    requires xs != [] && forall i :: 0 < i < |xs| ==> xs[i] == xs[i - 1] + BIWEEKLY_DAYS
    ensures forall d :: d in xs ==> xs[0] <= d
  {
    Steps(xs);
  }

  // ----- Contribution history -----

  /** A pay date with its calendar fields; `dayOfYear` counts from 0. */
  datatype PayDate = PayDate(day: int, year: int, month: int, dayOfYear: nat)

  const EMPLOYEE_RATE := 0.0845

  function EmployerRate(year: int): real {
    if year >= 2024 then 0.1795
    else if year >= 2022 then 0.1750
    else if year >= 2020 then 0.1700
    else if year >= 2018 then 0.1600
    else if year >= 2016 then 0.1450
    else if year >= 2014 then 0.1300
    else if year >= 2012 then 0.1200
    else 0.1100
  }

  function PayPeriodNumber(d: PayDate): int {
    var n := d.dayOfYear / BIWEEKLY_DAYS + 1;
    if n < 27 then n else 27
  }

  function Contribution(pay: real, rate: real): real {
    Cents(pay * rate)
  }

  datatype ContributionRow = ContributionRow(contribId: int, periodEnd: int, eeContrib: real, erContrib: real,
                                             eeBalance: real, erBalance: real, interest: real, fyYear: int)

  const MISMATCH := 0.03

  /** One pay period as the loop meets it: its date, the year's salary, and the two random decisions. */
  datatype Turn = Turn(date: PayDate, annualSalary: real, skipped: bool, mismatchDrawn: bool)

  datatype Ledger = Ledger(ee: real, er: real, injected: bool, nextId: int, rows: seq<ContributionRow>)

  function InterestOn(balance: real, date: PayDate): real {
    if date.month == 12 && PayPeriodNumber(date) >= 25 then Cents(balance * 0.03) else 0.0
  }

  function Post(l: Ledger, t: Turn, inject: bool): Ledger {
    if t.skipped then l
    else
      var pensionable := Cents(t.annualSalary / 26.0);
      var eeContrib := Contribution(pensionable, EMPLOYEE_RATE);
      var erContrib := Contribution(pensionable, EmployerRate(t.date.year));
      var interest := InterestOn(l.ee + eeContrib, t.date);
      var ee, er := l.ee + eeContrib + interest, l.er + erContrib;
      var hit := inject && !l.injected && ee > 50000.0 && t.mismatchDrawn;
      Ledger(ee, er, l.injected || hit, l.nextId + 1,
             l.rows + [ContributionRow(l.nextId, t.date.day, eeContrib, erContrib,
                                       if hit then ee + MISMATCH else ee, er, interest, t.date.year)])
  }

  function PostAll(turns: seq<Turn>, inject: bool, firstId: int): Ledger {
    if turns == [] then Ledger(0.0, 0.0, false, firstId, [])
    else Post(PostAll(Init(turns), inject, firstId), Last(turns), inject)
  }

  class Generator {
    var nextContribId: int
    var contributionHist: seq<ContributionRow>

    constructor ()
      ensures nextContribId == 1 && contributionHist == []
    {
      nextContribId, contributionHist := 1, [];
    }

    /** The contribution half of the per-member salary history. */
    method GenContributions(turns: seq<Turn>, injectBalanceMismatch: bool)
      modifies this
      ensures var l := PostAll(turns, injectBalanceMismatch, old(nextContribId));
              nextContribId == l.nextId && contributionHist == old(contributionHist) + l.rows
    {
      hide Cents, Contribution, EmployerRate, InterestOn;
      var eeRunning, erRunning, mismatchInjected := 0.0, 0.0, false;
      for i := 0 to |turns|
        invariant var l := PostAll(turns[..i], injectBalanceMismatch, old(nextContribId));
                  && eeRunning == l.ee && erRunning == l.er
                  && mismatchInjected == l.injected && nextContribId == l.nextId
                  && contributionHist == old(contributionHist) + l.rows
      {
        var t := turns[i];
        assert Init(turns[..i + 1]) == turns[..i] && Last(turns[..i + 1]) == t;
        ghost var before := PostAll(turns[..i], injectBalanceMismatch, old(nextContribId));
        if t.skipped {
          continue;
        }
        var grossPay := Cents(t.annualSalary / 26.0);
        var eeContrib := Contribution(grossPay, EMPLOYEE_RATE);
        var erContrib := Contribution(grossPay, EmployerRate(t.date.year));
        eeRunning := eeRunning + eeContrib;
        assert eeRunning == before.ee + eeContrib;
        erRunning := erRunning + erContrib;
        var interest := InterestOn(eeRunning, t.date);
        eeRunning := eeRunning + interest;
        var storedEe := eeRunning;
        if injectBalanceMismatch && !mismatchInjected {
          if eeRunning > 50000.0 && t.mismatchDrawn {
            storedEe := eeRunning + MISMATCH;
            mismatchInjected := true;
          }
        }
        contributionHist := contributionHist
          + [ContributionRow(nextContribId, t.date.day, eeContrib, erContrib, storedEe, erRunning, interest,
                             t.date.year)];
        nextContribId := nextContribId + 1;
      }
      assert turns[..|turns|] == turns;
    }
  }

  function EeContrib(row: ContributionRow): real {
    row.eeContrib
  }

  function ErContrib(row: ContributionRow): real {
    row.erContrib
  }

  function Interest(row: ContributionRow): real {
    row.interest
  }

  /** Everything credited to the employee, and to the employer, by the rows so far. */
  function EeCredited(rows: seq<ContributionRow>): real {
    Sum(Map(rows, EeContrib)) + Sum(Map(rows, Interest))
  }

  function ErCredited(rows: seq<ContributionRow>): real {
    Sum(Map(rows, ErContrib))
  }

  lemma SumMapOneMore(rows: seq<ContributionRow>, row: ContributionRow, f: ContributionRow -> real)
    ensures Sum(Map(rows + [row], f)) == Sum(Map(rows, f)) + f(row)
  {
    MapConcat(rows, [row], f);
    assert Map([row], f) == [f(row)];
    SumOneMore(Map(rows, f), f(row));
    hide Sum, Map;
  }

  lemma OneMoreCredited(rows: seq<ContributionRow>, row: ContributionRow)
    ensures EeCredited(rows + [row]) == EeCredited(rows) + row.eeContrib + row.interest
    ensures ErCredited(rows + [row]) == ErCredited(rows) + row.erContrib
  {
    SumMapOneMore(rows, row, EeContrib);
    SumMapOneMore(rows, row, ErContrib);
    SumMapOneMore(rows, row, Interest);
    hide Sum, Map;
  }

  /** Row `k` states what was credited up to it; `off` is the one row that may be wrong, or -1. */
  ghost predicate StatesCredits(rows: seq<ContributionRow>, k: nat, off: int)
    requires k < |rows|
  {
    && rows[k].eeBalance == EeCredited(rows[..k + 1]) + (if k == off then 0.03 else 0.0)
    && rows[k].erBalance == ErCredited(rows[..k + 1])
  }

  /**
   Every row states exactly the contributions and interest credited so far, except
   at most one, `off`, off by exactly 0.03, and that one only when a mismatch was
   asked for and the true balance exceeds 50000.  Ids are consecutive.
   */
  ghost predicate Conserved(l: Ledger, inject: bool, firstId: int, off: int) {
    && -1 <= off < |l.rows|
    && (forall k: nat :: k < |l.rows| ==> StatesCredits(l.rows, k, off))
    && l.ee == EeCredited(l.rows) && l.er == ErCredited(l.rows)
    && (off >= 0 <==> l.injected)
    && (off >= 0 ==> inject && EeCredited(l.rows[..off + 1]) > 50000.0)
    && l.nextId == firstId + |l.rows|
    && (forall k :: 0 <= k < |l.rows| ==> l.rows[k].contribId == firstId + k)
  }

  /** One more row leaves what the earlier ones state as it was. */
  lemma EarlierRowsStay(rows: seq<ContributionRow>, row: ContributionRow, k: nat, off: int, off': int)
    requires k < |rows| && StatesCredits(rows, k, off) && (k == off <==> k == off')
    ensures StatesCredits(rows + [row], k, off')
  {
    assert (rows + [row])[..k + 1] == rows[..k + 1];
  }

  /** One more turn, whichever way it goes, keeps balances conserved. */
  lemma {:induction false} PostConserves(l: Ledger, t: Turn, inject: bool, firstId: int, off: int) returns (off': int)
    requires Conserved(l, inject, firstId, off)
    ensures Conserved(Post(l, t, inject), inject, firstId, off') && l.rows <= Post(l, t, inject).rows
    ensures off' == if off < 0 && !t.skipped && inject && t.mismatchDrawn && Post(l, t, inject).ee > 50000.0
                    then |l.rows| else off
  {
    hide Cents, Contribution, EmployerRate, InterestOn, EeCredited, ErCredited;
    var after := Post(l, t, inject);
    off' := off;
    if !t.skipped {
      var n, row := |l.rows|, Last(after.rows);
      assert after.rows == l.rows + [row];
      OneMoreCredited(l.rows, row);
      if after.injected && !l.injected {
        off' := n;
      }
      assert after.rows[..n + 1] == after.rows;
      assert StatesCredits(after.rows, n, off');
      assert off' < n ==> after.rows[..off' + 1] == l.rows[..off' + 1];
      forall k: nat | k < n
        ensures StatesCredits(after.rows, k, off')
      {
        EarlierRowsStay(l.rows, row, k, off, off');
      }
      hide StatesCredits;
    }
  }

  /** Balances are conserved in every run. */
  lemma {:induction false} BalancesConserved(turns: seq<Turn>, inject: bool, firstId: int) returns (off: int)
    ensures Conserved(PostAll(turns, inject, firstId), inject, firstId, off)
  {
    off := -1;
    if turns != [] {
      off := BalancesConserved(Init(turns), inject, firstId);
      hide Conserved, Post;
      off := PostConserves(PostAll(Init(turns), inject, firstId), Last(turns), inject, firstId, off);
    }
  }

  /** Without the injected fault every row is exact. */
  lemma BalancesExact(turns: seq<Turn>, firstId: int)
    ensures var rows := PostAll(turns, false, firstId).rows;
            forall k: nat :: k < |rows| ==> StatesCredits(rows, k, -1)
  {
    hide StatesCredits;
    var off := BalancesConserved(turns, false, firstId);
  }

  // ----- What each row is worth -----

  predicate NotSkipped(t: Turn) {
    !t.skipped
  }

  /** The pay periods that are paid, in order. */
  function Paid(turns: seq<Turn>): seq<Turn> {
    Filter(turns, NotSkipped)
  }

  predicate Near(x: real, y: real) {
    y - 0.005 <= x <= y + 0.005
  }

  /** The published schedule of employer rates, by the year from which each applies. */
  predicate Scheduled(from: int, rate: real) {
    (from, rate) in {(2024, 0.1795), (2022, 0.1750), (2020, 0.1700), (2018, 0.1600), (2016, 0.1450), (2014, 0.1300),
                     (2012, 0.1200), (1900, 0.1100)}
  }

  /** The latest rate that applies is used. */
  lemma EmployerRateIsScheduled(year: int)
    requires year >= 1900
    ensures exists from ::
              from <= year && Scheduled(from, EmployerRate(year))
              && forall later, rate :: Scheduled(later, rate) && later <= year ==> later <= from
  {
    var from := if year >= 2024 then 2024 else if year >= 2022 then 2022 else if year >= 2020 then 2020
                else if year >= 2018 then 2018 else if year >= 2016 then 2016 else if year >= 2014 then 2014
                else if year >= 2012 then 2012 else 1900;
    assert Scheduled(from, EmployerRate(year));
  }

  /** `row` pays for `t`: its date and year, and 8.45% and the year's rate of a biweekly pay, all to the cent. */
  ghost predicate PaysFor(t: Turn, row: ContributionRow) {
    && row.periodEnd == t.date.day && row.fyYear == t.date.year
    && exists pay ::
         && Near(pay, t.annualSalary / 26.0)
         && NearShare(row.eeContrib, pay, 0.0845) && NearShare(row.erContrib, pay, EmployerRate(t.date.year))
         && (t.annualSalary >= 0.0 ==> row.erContrib >= row.eeContrib >= 0.0)
  }

  predicate NearShare(amount: real, pay: real, rate: real) {
    Near(amount, pay * rate)
  }

  /** Interest is credited late in December only, and is 3% of the employee's credits, this row's included. */
  predicate InterestFits(t: Turn, row: ContributionRow, before: real) {
    if t.date.month == 12 && t.date.dayOfYear >= 336 then Near(row.interest, (before + row.eeContrib) * 0.03)
    else row.interest == 0.0
  }

  ghost predicate RowFits(t: Turn, rows: seq<ContributionRow>, k: nat)
    requires k < |rows|
  {
    PaysFor(t, rows[k]) && InterestFits(t, rows[k], EeCredited(rows[..k]))
  }

  lemma ContributionOrder(pay: real, year: int, ee: real, er: real)
    requires pay >= 0.0 && ee == Contribution(pay, EMPLOYEE_RATE) && er == Contribution(pay, EmployerRate(year))
    ensures 0.0 <= ee <= er
  {
    var r := EmployerRate(year);
    assert r >= EMPLOYEE_RATE;
    ShareMonotone(pay, 0.0, EMPLOYEE_RATE);
    ShareMonotone(pay, EMPLOYEE_RATE, r);
    CentsMonotone(0.0, pay * EMPLOYEE_RATE);
    CentsMonotone(pay * EMPLOYEE_RATE, pay * r);
    hide EmployerRate;
    assert Cents(0.0) == 0.0;
    hide Cents;
  }

  lemma ShareMonotone(pay: real, r: real, r': real)
    requires pay >= 0.0 && r <= r'
    ensures pay * r <= pay * r'
  {
    assert pay * (r' - r) >= 0.0;
  }

  lemma ContributionNear(pay: real, rate: real)
    ensures NearShare(Contribution(pay, rate), pay, rate)
  {
    CentsWithinHalfCent(pay * rate);
    hide Cents;
  }

  lemma InterestNear(t: Turn, balance: real)
    ensures if t.date.month == 12 && t.date.dayOfYear >= 336 then Near(InterestOn(balance, t.date), balance * 0.03)
            else InterestOn(balance, t.date) == 0.0
  {
    CentsWithinHalfCent(balance * 0.03);
    hide Cents;
  }

  /** One more paid period's row. */
  lemma PostedRow(l: Ledger, t: Turn, inject: bool)
    requires !t.skipped && l.ee == EeCredited(l.rows)
    ensures var after := Post(l, t, inject).rows;
            |after| == |l.rows| + 1 && after[..|l.rows|] == l.rows && RowFits(t, after, |l.rows|)
  {
    var pay := Cents(t.annualSalary / 26.0);
    CentsWithinHalfCent(t.annualSalary / 26.0);
    ContributionNear(pay, EMPLOYEE_RATE);
    ContributionNear(pay, EmployerRate(t.date.year));
    var after := Post(l, t, inject).rows;
    var row := after[|l.rows|];
    InterestNear(t, l.ee + row.eeContrib);
    if t.annualSalary >= 0.0 {
      CentsMonotone(0.0, t.annualSalary / 26.0);
      assert Cents(0.0) == 0.0;
      ContributionOrder(pay, t.date.year, row.eeContrib, row.erContrib);
    }
    hide Cents, Contribution, EmployerRate, InterestOn, EeCredited, NearShare;
    assert after[..|l.rows|] == l.rows;
    assert PaysFor(t, row);
  }

  /**
   The rows are those of the paid periods, one each and in order, with their dates,
   and each amount is within half a cent of what salary, rate and credits make it.
   */
  lemma {:induction false} RowsFitTurns(turns: seq<Turn>, inject: bool, firstId: int)
    ensures var rows := PostAll(turns, inject, firstId).rows;
            |rows| == |Paid(turns)| && forall k: nat :: k < |rows| ==> RowFits(Paid(turns)[k], rows, k)
  {
    if turns != [] {
      var before, t := Init(turns), Last(turns);
      var l := PostAll(before, inject, firstId);
      RowsFitTurns(before, inject, firstId);
      FilterOneMore(before, t, NotSkipped);
      assert before + [t] == turns;
      var off := BalancesConserved(before, inject, firstId);
      var rows := PostAll(turns, inject, firstId).rows;
      if !t.skipped {
        PostedRow(l, t, inject);
        hide Post, Filter, RowFits, StatesCredits;
        forall k: nat | k < |l.rows|
          ensures RowFits(Paid(turns)[k], rows, k)
        {
          EarlierRowFits(Paid(before)[k], l.rows, rows, k);
        }
      }
    }
  }

  lemma EarlierRowFits(t: Turn, rows: seq<ContributionRow>, longer: seq<ContributionRow>, k: nat)
    requires k < |rows| <= |longer| && longer[..|rows|] == rows && RowFits(t, rows, k)
    ensures RowFits(t, longer, k)
  {
    assert longer[..k] == rows[..k] && longer[k] == rows[k];
    hide EeCredited, PaysFor;
  }

  // ----- Where the mismatch strikes -----

  /** A mismatch was asked for and drawn, with more than 50000 credited by then. */
  predicate Eligible(turns: seq<Turn>, rows: seq<ContributionRow>, inject: bool, k: nat)
    requires |rows| == |Paid(turns)| && k < |rows|
  {
    inject && Paid(turns)[k].mismatchDrawn && EeCredited(rows[..k + 1]) > 50000.0
  }

  /** `off` is the first eligible row, or -1 when there is none. */
  ghost predicate FirstEligible(turns: seq<Turn>, rows: seq<ContributionRow>, inject: bool, off: int)
    requires |rows| == |Paid(turns)|
  {
    && -1 <= off < |rows| && (off >= 0 ==> Eligible(turns, rows, inject, off))
    && forall k: nat :: k < (if off < 0 then |rows| else off) ==> !Eligible(turns, rows, inject, k)
  }

  lemma FirstEligibleStep(before: seq<Turn>, t: Turn, rows: seq<ContributionRow>, longer: seq<ContributionRow>,
                          inject: bool, off: int, off': int)
    requires |rows| == |Paid(before)| && |longer| == |Paid(before + [t])|
    requires rows <= longer && |longer| == |rows| + (if t.skipped then 0 else 1)
    requires FirstEligible(before, rows, inject, off)
    requires off' == if off < 0 && !t.skipped && inject && t.mismatchDrawn && EeCredited(longer) > 50000.0
                     then |rows| else off
    ensures FirstEligible(before + [t], longer, inject, off')
  {
    hide EeCredited, Filter;
    var turns, n := before + [t], |rows|;
    FilterOneMore(before, t, NotSkipped);
    forall k: nat | k < n
      ensures Eligible(turns, longer, inject, k) == Eligible(before, rows, inject, k)
    {
      assert longer[..k + 1] == rows[..k + 1];
    }
    if !t.skipped {
      assert longer[..n + 1] == longer;
      assert Eligible(turns, longer, inject, n) <==> inject && t.mismatchDrawn && EeCredited(longer) > 50000.0;
    }
    hide Eligible;
  }

  /** The one row that is off is the first eligible one. */
  lemma {:induction false} MismatchStrikesFirst(turns: seq<Turn>, inject: bool, firstId: int) returns (off: int)
    ensures var l := PostAll(turns, inject, firstId);
            && |l.rows| == |Paid(turns)|
            && Conserved(l, inject, firstId, off) && FirstEligible(turns, l.rows, inject, off)
  {
    hide Post, EeCredited, ErCredited, RowFits, StatesCredits, Filter;
    off := -1;
    RowsFitTurns(turns, inject, firstId);
    if turns != [] {
      var before, t := Init(turns), Last(turns);
      assert before + [t] == turns;
      var was := PostAll(before, inject, firstId);
      var o := MismatchStrikesFirst(before, inject, firstId);
      off := PostConserves(was, t, inject, firstId, o);
      RowsFitTurns(before, inject, firstId);
      FilterOneMore(before, t, NotSkipped);
      FirstEligibleStep(before, t, was.rows, Post(was, t, inject).rows, inject, o, off);
    } else {
      NothingPosted(inject, firstId);
    }
  }

  lemma NothingPosted(inject: bool, firstId: int)
    ensures Conserved(PostAll([], inject, firstId), inject, firstId, -1)
  {
  }
}
