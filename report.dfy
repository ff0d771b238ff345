/**
 * The report aggregation engine: period labels, first-match lookup of a
 * period's value, the period sequence of a report, the grouping of a user's
 * transactions into per-period sums, and the two report tables
 * (profit/loss and income/expenses), one row per period.
 *
 * The clock is an explicit `asOf` date and the user's transactions an
 * in-memory sequence; amounts are integer cents.
 */
module Report {
  import opened Wrappers
  import opened Decimal
  import opened Calendar

  /** The two report ranges: the months of the current year, or every year. */
  datatype RangeMode = Year | All

  /** The instant a report is computed for ("now"). */
  datatype AsOf = AsOf(year: nat, month: Month)

  /** A stored transaction as the report sees it: signed amount in cents, debit flag, and date. */
  datatype Txn = Txn(amount: int, isDebit: bool, year: nat, month: Month)

  /** A period key with the summed amount of that period. */
  datatype PeriodPoint = PeriodPoint(period: int, value: int)

  /** A report row `[title, first, second]`. */
  datatype Row = Row(title: string, first: int, second: int)

  /** The sign convention the save filter establishes: debits are stored non-positive, credits non-negative. */
  predicate Normalized(t: Txn) { (t.isDebit ==> t.amount <= 0) && (!t.isDebit ==> t.amount >= 0) }

  // ---------------------------------------------------------------- period_value

  /** The display label of a period: a month abbreviation, or the year written out. */
  function PeriodValue(mode: RangeMode, period: int): (s: string)
    requires mode == Year ==> 1 <= period <= 12
    ensures mode == Year ==> |MonthName(period)| >= 3 && s == MonthName(period)[..3]
    ensures mode == All ==> ParseInt(s) == Some(period)
  {
    match mode
    case Year => MonthAbbrev(period)
    case All => ParseIntToString(period); IntToString(period)
  }

  /** Month labels are pairwise distinct, so a year report never shows the same label twice. */
  lemma MonthLabelsDistinct(m: int, n: int)
    requires 1 <= m <= 12 && 1 <= n <= 12 && m != n
    ensures PeriodValue(Year, m) != PeriodValue(Year, n)
  {
    if PeriodValue(Year, m) == PeriodValue(Year, n) { MonthAbbrevInjective(m, n); }
  }

  /** Periods 1 to 12 are labelled Jan to Dec, in calendar order. */
  lemma MonthLabelsInOrder()
    ensures seq(12, i requires 0 <= i < 12 => PeriodValue(Year, i + 1))
         == ["Jan", "Feb", "Mar", "Apr", "May", "Jun", "Jul", "Aug", "Sep", "Oct", "Nov", "Dec"]
  {
  }

  /** A year given as its digits is labelled with exactly those digits. */
  lemma YearLabelUnchanged(digits: string)
    requires Canonical(digits)
    ensures PeriodValue(All, DigitsValue(digits)) == digits
  {
    NatToStringOfDigits(digits);
  }

  // ---------------------------------------------------------------- get_value_for_period

  /** The value of the first point whose key is `period`, or 0 when no point has that key. */
  function GetValueForPeriod(points: seq<PeriodPoint>, period: int): (v: int)
    ensures (forall i :: 0 <= i < |points| ==> points[i].period != period) ==> v == 0
    ensures forall i :: (0 <= i < |points| && points[i].period == period
              && forall j :: 0 <= j < i ==> points[j].period != period) ==> v == points[i].value
  {
    if points == [] then 0
    else if points[0].period == period then points[0].value
    else
      var v := GetValueForPeriod(points[1..], period);
      assert forall i :: 1 <= i < |points| ==> points[i] == points[1..][i - 1];
      v
  }

  /** The keys the points carry. */
  function Periods(points: seq<PeriodPoint>): set<int>
  {
    set pt | pt in points :: pt.period
  }

  predicate DistinctPeriods(points: seq<PeriodPoint>)
  {
    forall i, j :: 0 <= i < j < |points| ==> points[i].period != points[j].period
  }

  // ---------------------------------------------------------------- grouping

  /** The period a transaction falls in: its month in a year report, its year otherwise. */
  function Key(t: Txn, mode: RangeMode): int
  {
    match mode
    case Year => t.month
    case All => t.year
  }

  /** Whether a transaction of the given kind (debit or credit) is summed into the report. */
  predicate Counts(t: Txn, mode: RangeMode, asOf: AsOf, debit: bool)
  {
    t.isDebit == debit && (mode == All || t.year == asOf.year)
  }

  /** Adds an amount to the first point of a period, or appends a new point for it. */
  function AddToPoints(points: seq<PeriodPoint>, period: int, amount: int): (r: seq<PeriodPoint>)
    ensures Periods(r) == Periods(points) + {period}
    ensures DistinctPeriods(points) ==> DistinctPeriods(r)
  {
    if points == [] then [PeriodPoint(period, amount)]
    else if points[0].period == period then
      var r := [PeriodPoint(period, points[0].value + amount)] + points[1..];
      assert forall i :: 1 <= i < |r| ==> r[i] == points[i];
      assert points == [points[0]] + points[1..];
      r
    else
      var tail := AddToPoints(points[1..], period, amount);
      var r := [points[0]] + tail;
      assert points == [points[0]] + points[1..];
      assert Periods(points) == {points[0].period} + Periods(points[1..]);
      assert Periods(r) == {points[0].period} + Periods(tail);
      assert DistinctPeriods(points) ==> DistinctPeriods(r) by {
        if DistinctPeriods(points) {
          DistinctTail(points);
          DistinctCons(points[0], tail);
        }
      }
      r
  }

  /** The tail of distinct points is distinct and does not repeat the head's period. */
  lemma DistinctTail(points: seq<PeriodPoint>)
    requires points != [] && DistinctPeriods(points)
    ensures DistinctPeriods(points[1..]) && points[0].period !in Periods(points[1..])
  {
    var tail := points[1..];
    forall i, j | 0 <= i < j < |tail| ensures tail[i].period != tail[j].period {
      assert tail[i] == points[i + 1] && tail[j] == points[j + 1];
    }
  }

  /** A point followed by distinct points of other periods gives distinct points. */
  lemma DistinctCons(pt: PeriodPoint, tail: seq<PeriodPoint>)
    requires DistinctPeriods(tail) && pt.period !in Periods(tail)
    ensures DistinctPeriods([pt] + tail)
  {
    var r := [pt] + tail;
    forall i, j | 0 <= i < j < |r| ensures r[i].period != r[j].period {
      assert r[j] == tail[j - 1] && tail[j - 1] in tail;
      if i > 0 { assert r[i] == tail[i - 1]; }
    }
  }

  /** Looking a period up after adding to it yields the old value plus the amount. */
  lemma {:induction false} GetValueAfterAdd(points: seq<PeriodPoint>, period: int, amount: int, p: int)
    ensures GetValueForPeriod(AddToPoints(points, period, amount), p)
         == GetValueForPeriod(points, p) + (if p == period then amount else 0)
  {
    if points != [] && points[0].period != period {
      GetValueAfterAdd(points[1..], period, amount, p);
    } else if points != [] {
      var r := AddToPoints(points, period, amount);
      assert r[1..] == points[1..];
    }
  }

  /** The periods in which transactions of the given kind occur. */
  function ActivePeriods(txs: seq<Txn>, mode: RangeMode, asOf: AsOf, debit: bool): set<int>
  {
    set t | t in txs && Counts(t, mode, asOf, debit) :: Key(t, mode)
  }

  lemma ActivePeriodsCons(txs: seq<Txn>, mode: RangeMode, asOf: AsOf, debit: bool)
    requires txs != []
    ensures ActivePeriods(txs, mode, asOf, debit)
         == ActivePeriods(txs[1..], mode, asOf, debit)
            + (if Counts(txs[0], mode, asOf, debit) then {Key(txs[0], mode)} else {})
  {
    assert forall t :: t in txs <==> t == txs[0] || t in txs[1..] by {
      assert txs == [txs[0]] + txs[1..];
    }
  }

  /**
   * The grouped query behind a report: one point per period in which
   * transactions of the given kind occur.
   */
  function GroupByPeriod(txs: seq<Txn>, mode: RangeMode, asOf: AsOf, debit: bool): (points: seq<PeriodPoint>)
    ensures DistinctPeriods(points)
    ensures Periods(points) == ActivePeriods(txs, mode, asOf, debit)
  {
    if txs == [] then []
    else
      var rest := GroupByPeriod(txs[1..], mode, asOf, debit);
      ActivePeriodsCons(txs, mode, asOf, debit);
      if Counts(txs[0], mode, asOf, debit) then AddToPoints(rest, Key(txs[0], mode), txs[0].amount)
      else rest
  }

  /** Reference definition: the sum of the amounts of the given kind that fall in period `p`. */
  function PeriodTotal(txs: seq<Txn>, mode: RangeMode, asOf: AsOf, debit: bool, p: int): int
  {
    if txs == [] then 0
    else
      (if Counts(txs[0], mode, asOf, debit) && Key(txs[0], mode) == p then txs[0].amount else 0)
      + PeriodTotal(txs[1..], mode, asOf, debit, p)
  }

  /** A period's value in the grouped points is the sum of its transactions. */
  lemma {:induction false} GroupByPeriodTotals(txs: seq<Txn>, mode: RangeMode, asOf: AsOf, debit: bool, p: int)
    ensures GetValueForPeriod(GroupByPeriod(txs, mode, asOf, debit), p) == PeriodTotal(txs, mode, asOf, debit, p)
  {
    if txs != [] {
      GroupByPeriodTotals(txs[1..], mode, asOf, debit, p);
      if Counts(txs[0], mode, asOf, debit) {
        GetValueAfterAdd(GroupByPeriod(txs[1..], mode, asOf, debit), Key(txs[0], mode), txs[0].amount, p);
      }
    }
  }

  /** A period without transactions of the given kind sums to zero. */
  lemma {:induction false} PeriodTotalQuiet(txs: seq<Txn>, mode: RangeMode, asOf: AsOf, debit: bool, p: int)
    requires p !in ActivePeriods(txs, mode, asOf, debit)
    ensures PeriodTotal(txs, mode, asOf, debit, p) == 0
  {
    if txs != [] {
      ActivePeriodsCons(txs, mode, asOf, debit);
      PeriodTotalQuiet(txs[1..], mode, asOf, debit, p);
    }
  }

  /** Under the stored sign convention, credits sum to at least zero and debits to at most zero. */
  lemma {:induction false} PeriodTotalSign(txs: seq<Txn>, mode: RangeMode, asOf: AsOf, debit: bool, p: int)
    requires forall t :: t in txs ==> Normalized(t)
    ensures debit ==> PeriodTotal(txs, mode, asOf, debit, p) <= 0
    ensures !debit ==> PeriodTotal(txs, mode, asOf, debit, p) >= 0
  {
    if txs != [] {
      assert Normalized(txs[0]);
      PeriodTotalSign(txs[1..], mode, asOf, debit, p);
    }
  }

  /** Income of a period: the sum of its credits. */
  function IncomeTotal(txs: seq<Txn>, mode: RangeMode, asOf: AsOf, p: int): int
  {
    PeriodTotal(txs, mode, asOf, false, p)
  }

  /** Expenses of a period as a magnitude: the negated sum of its (negative) debits. */
  function ExpenseTotal(txs: seq<Txn>, mode: RangeMode, asOf: AsOf, p: int): int
  {
    -PeriodTotal(txs, mode, asOf, true, p)
  }

  // ---------------------------------------------------------------- calculate_period

  /** The integers `lo, lo + 1, ..., hi - 1`; empty when `hi <= lo`. */
  function Range(lo: int, hi: int): (r: seq<int>)
    ensures |r| == if lo <= hi then hi - lo else 0
    ensures forall i :: 0 <= i < |r| ==> r[i] == lo + i
    decreases hi - lo
  {
    if hi <= lo then [] else [lo] + Range(lo + 1, hi)
  }

  /** The smallest key among the points. */
  function MinPeriod(points: seq<PeriodPoint>): (m: int)
    requires points != []
    ensures m in Periods(points)
    ensures forall i :: 0 <= i < |points| ==> m <= points[i].period
  {
    if |points| == 1 then points[0].period
    else
      var m := MinPeriod(points[1..]);
      assert forall i :: 1 <= i < |points| ==> points[i] == points[1..][i - 1];
      assert points == [points[0]] + points[1..];
      if points[0].period < m then points[0].period else m
  }

  /**
   * The periods a report covers: months 1 through the as-of month in a year
   * report; in an all-time report the years from the earliest key of either
   * list through the as-of year, or just the as-of year when both lists are empty.
   */
  function CalculatePeriod(expenses: seq<PeriodPoint>, income: seq<PeriodPoint>, mode: RangeMode, asOf: AsOf)
    : (periods: seq<int>)
    ensures mode == Year ==> |periods| == asOf.month && forall i :: 0 <= i < |periods| ==> periods[i] == i + 1
    ensures mode == All && expenses == [] && income == [] ==> periods == [asOf.year]
    ensures mode == All && expenses + income != [] ==>
              var first := MinPeriod(expenses + income);
              |periods| == (if first <= asOf.year then asOf.year - first + 1 else 0)
              && forall i :: 0 <= i < |periods| ==> periods[i] == first + i
  {
    match mode
    case Year => Range(1, asOf.month + 1)
    case All =>
      if expenses == [] && income == [] then [asOf.year]
      else Range(MinPeriod(expenses + income), asOf.year + 1)
  }

  /** Report periods ascend without gaps; an all-time report ends at the as-of year and covers every key up to it. */
  lemma CalculatePeriodContiguous(expenses: seq<PeriodPoint>, income: seq<PeriodPoint>, mode: RangeMode, asOf: AsOf)
    ensures var periods := CalculatePeriod(expenses, income, mode, asOf);
      (forall i :: 0 < i < |periods| ==> periods[i] == periods[i - 1] + 1)
      && (mode == All && periods != [] ==> periods[|periods| - 1] == asOf.year)
      && (mode == All ==> forall q :: q in Periods(expenses + income) && q <= asOf.year ==> q in periods)
  {
    var periods := CalculatePeriod(expenses, income, mode, asOf);
    if mode == All && expenses + income != [] {
      var first := MinPeriod(expenses + income);
      forall q | q in Periods(expenses + income) && q <= asOf.year ensures q in periods {
        assert periods[q - first] == q;
      }
    }
  }

  // ---------------------------------------------------------------- calculators

  function ExpensePoints(txs: seq<Txn>, mode: RangeMode, asOf: AsOf): seq<PeriodPoint>
  {
    GroupByPeriod(txs, mode, asOf, true)
  }

  function IncomePoints(txs: seq<Txn>, mode: RangeMode, asOf: AsOf): seq<PeriodPoint>
  {
    GroupByPeriod(txs, mode, asOf, false)
  }

  /** The period sequence both calculators lay their rows out on. */
  function ReportPeriods(txs: seq<Txn>, mode: RangeMode, asOf: AsOf): (periods: seq<int>)
    ensures mode == Year ==> forall i :: 0 <= i < |periods| ==> 1 <= periods[i] <= 12
  {
    CalculatePeriod(ExpensePoints(txs, mode, asOf), IncomePoints(txs, mode, asOf), mode, asOf)
  }

  /** Profit/loss table: per period, the net amount when positive in the first column, when negative in the second. */
  function CalculateProfitLoss(txs: seq<Txn>, mode: RangeMode, asOf: AsOf): (rows: seq<Row>)
    ensures |rows| == |ReportPeriods(txs, mode, asOf)|
    ensures forall i :: 0 <= i < |rows| ==> rows[i].title == PeriodValue(mode, ReportPeriods(txs, mode, asOf)[i])
    ensures forall i :: 0 <= i < |rows| ==> rows[i].first >= 0 && rows[i].second <= 0 && (rows[i].first == 0 || rows[i].second == 0)
  {
    var expenses, income := ExpensePoints(txs, mode, asOf), IncomePoints(txs, mode, asOf);
    var periods := ReportPeriods(txs, mode, asOf);
    seq(|periods|, i requires 0 <= i < |periods| =>
      var net := GetValueForPeriod(income, periods[i]) + GetValueForPeriod(expenses, periods[i]);
      Row(PeriodValue(mode, periods[i]), if net > 0 then net else 0, if net < 0 then net else 0))
  }

  /** Income/expenses table: per period, the income in the first column and the expense magnitude in the second. */
  function CalculateIncomeExpenses(txs: seq<Txn>, mode: RangeMode, asOf: AsOf): (rows: seq<Row>)
    ensures |rows| == |ReportPeriods(txs, mode, asOf)|
    ensures forall i :: 0 <= i < |rows| ==> rows[i].title == PeriodValue(mode, ReportPeriods(txs, mode, asOf)[i])
  {
    var expenses, income := ExpensePoints(txs, mode, asOf), IncomePoints(txs, mode, asOf);
    var periods := ReportPeriods(txs, mode, asOf);
    seq(|periods|, i requires 0 <= i < |periods| =>
      Row(PeriodValue(mode, periods[i]), GetValueForPeriod(income, periods[i]), -GetValueForPeriod(expenses, periods[i])))
  }

  // ---------------------------------------------------------------- properties of the reports

  /** Each profit/loss row carries its period's label and the positive or negative part of income minus expenses. */
  lemma ProfitLossRows(txs: seq<Txn>, mode: RangeMode, asOf: AsOf)
    ensures var periods, rows := ReportPeriods(txs, mode, asOf), CalculateProfitLoss(txs, mode, asOf);
      |rows| == |periods|
      && forall i :: 0 <= i < |rows| ==>
           var net := IncomeTotal(txs, mode, asOf, periods[i]) - ExpenseTotal(txs, mode, asOf, periods[i]);
           rows[i] == Row(PeriodValue(mode, periods[i]), if net > 0 then net else 0, if net < 0 then net else 0)
  {
    var periods, rows := ReportPeriods(txs, mode, asOf), CalculateProfitLoss(txs, mode, asOf);
    forall i | 0 <= i < |rows|
      ensures var net := IncomeTotal(txs, mode, asOf, periods[i]) - ExpenseTotal(txs, mode, asOf, periods[i]);
        rows[i] == Row(PeriodValue(mode, periods[i]), if net > 0 then net else 0, if net < 0 then net else 0)
    {
      GroupByPeriodTotals(txs, mode, asOf, true, periods[i]);
      GroupByPeriodTotals(txs, mode, asOf, false, periods[i]);
    }
  }

  /** Each income/expenses row carries its period's label, its income and its expense magnitude. */
  lemma IncomeExpensesRows(txs: seq<Txn>, mode: RangeMode, asOf: AsOf)
    ensures var periods, rows := ReportPeriods(txs, mode, asOf), CalculateIncomeExpenses(txs, mode, asOf);
      |rows| == |periods|
      && forall i :: 0 <= i < |rows| ==>
           rows[i] == Row(PeriodValue(mode, periods[i]),
                          IncomeTotal(txs, mode, asOf, periods[i]), ExpenseTotal(txs, mode, asOf, periods[i]))
  {
    var periods, rows := ReportPeriods(txs, mode, asOf), CalculateIncomeExpenses(txs, mode, asOf);
    forall i | 0 <= i < |rows|
      ensures rows[i] == Row(PeriodValue(mode, periods[i]),
                             IncomeTotal(txs, mode, asOf, periods[i]), ExpenseTotal(txs, mode, asOf, periods[i]))
    {
      GroupByPeriodTotals(txs, mode, asOf, true, periods[i]);
      GroupByPeriodTotals(txs, mode, asOf, false, periods[i]);
    }
  }

  /** The years in which the transactions fall. */
  function YearsOf(txs: seq<Txn>): set<int>
  {
    set t | t in txs :: t.year
  }

  /** The earliest year of any transaction. */
  function MinYear(txs: seq<Txn>): (y: nat)
    requires txs != []
    ensures y in YearsOf(txs)
    ensures forall t :: t in txs ==> y <= t.year
  {
    if |txs| == 1 then txs[0].year
    else
      var y := MinYear(txs[1..]);
      assert txs == [txs[0]] + txs[1..];
      if txs[0].year < y then txs[0].year else y
  }

  lemma PeriodsConcat(a: seq<PeriodPoint>, b: seq<PeriodPoint>)
    ensures Periods(a + b) == Periods(a) + Periods(b)
  {
    assert forall pt :: pt in a + b <==> pt in a || pt in b;
  }

  /**
   * A year report covers months 1 through the as-of month; an all-time report
   * covers the years from the earliest transaction through the as-of year, or
   * only the as-of year when there are no transactions.
   */
  lemma ReportPeriodsSpan(txs: seq<Txn>, mode: RangeMode, asOf: AsOf)
    ensures var periods := ReportPeriods(txs, mode, asOf);
      (mode == Year ==> |periods| == asOf.month && forall i :: 0 <= i < |periods| ==> periods[i] == i + 1)
      && (mode == All && txs == [] ==> periods == [asOf.year])
      && (mode == All && txs != [] ==>
            var first := MinYear(txs);
            |periods| == (if first <= asOf.year then asOf.year - first + 1 else 0)
            && forall i :: 0 <= i < |periods| ==> periods[i] == first + i)
  {
    if mode == All {
      var expenses, income := ExpensePoints(txs, mode, asOf), IncomePoints(txs, mode, asOf);
      PeriodsConcat(expenses, income);
      assert Periods(expenses + income) == YearsOf(txs) by {
        forall t | t in txs ensures t.year in Periods(expenses + income) {
          assert Counts(t, mode, asOf, t.isDebit);
        }
      }
      if txs != [] {
        assert txs[0].year in Periods(expenses + income);
        var first := MinPeriod(expenses + income);
        assert first == MinYear(txs) by {
          var y := MinYear(txs);
          var pt: PeriodPoint :| pt in expenses + income && pt.period == y;
          var k :| 0 <= k < |expenses + income| && (expenses + income)[k] == pt;
          var u: Txn :| u in txs && u.year == first;
        }
      }
    }
  }

  /** A period without any transaction of the report's scope gets a row of zeros in both tables. */
  lemma QuietPeriodRows(txs: seq<Txn>, mode: RangeMode, asOf: AsOf, i: int)
    requires 0 <= i < |ReportPeriods(txs, mode, asOf)|
    requires forall t :: t in txs && (mode == All || t.year == asOf.year) ==> Key(t, mode) != ReportPeriods(txs, mode, asOf)[i]
    ensures var title := PeriodValue(mode, ReportPeriods(txs, mode, asOf)[i]);
      CalculateProfitLoss(txs, mode, asOf)[i] == Row(title, 0, 0)
      && CalculateIncomeExpenses(txs, mode, asOf)[i] == Row(title, 0, 0)
  {
    var p := ReportPeriods(txs, mode, asOf)[i];
    ProfitLossRows(txs, mode, asOf);
    IncomeExpensesRows(txs, mode, asOf);
    PeriodTotalQuiet(txs, mode, asOf, true, p);
    PeriodTotalQuiet(txs, mode, asOf, false, p);
  }

  /** In a year report, the months after the last month with transactions in that year get rows of zeros. */
  lemma QuietMonthsAfter(txs: seq<Txn>, asOf: AsOf, last: int)
    requires forall t :: t in txs && t.year == asOf.year ==> t.month <= last
    ensures var rows := CalculateProfitLoss(txs, Year, asOf);
      forall i :: 0 <= i < |rows| && last <= i ==> rows[i] == Row(PeriodValue(Year, i + 1), 0, 0)
    ensures var rows := CalculateIncomeExpenses(txs, Year, asOf);
      forall i :: 0 <= i < |rows| && last <= i ==> rows[i] == Row(PeriodValue(Year, i + 1), 0, 0)
  {
    ReportPeriodsSpan(txs, Year, asOf);
    var periods := ReportPeriods(txs, Year, asOf);
    forall i | 0 <= i < |periods| && last <= i
      ensures CalculateProfitLoss(txs, Year, asOf)[i] == Row(PeriodValue(Year, i + 1), 0, 0)
      ensures CalculateIncomeExpenses(txs, Year, asOf)[i] == Row(PeriodValue(Year, i + 1), 0, 0)
    {
      QuietPeriodRows(txs, Year, asOf, i);
    }
  }

  /** With stored signs normalized, both columns of the income/expenses table are non-negative. */
  lemma IncomeExpensesNonNegative(txs: seq<Txn>, mode: RangeMode, asOf: AsOf)
    requires forall t :: t in txs ==> Normalized(t)
    ensures var rows := CalculateIncomeExpenses(txs, mode, asOf);
      forall i :: 0 <= i < |rows| ==> rows[i].first >= 0 && rows[i].second >= 0
  {
    var periods, rows := ReportPeriods(txs, mode, asOf), CalculateIncomeExpenses(txs, mode, asOf);
    IncomeExpensesRows(txs, mode, asOf);
    forall i | 0 <= i < |rows| ensures rows[i].first >= 0 && rows[i].second >= 0 {
      PeriodTotalSign(txs, mode, asOf, true, periods[i]);
      PeriodTotalSign(txs, mode, asOf, false, periods[i]);
    }
  }

  /**
   * The two tables share their periods and labels; a profit/loss row holds
   * income minus expenses of the matching income/expenses row, split into a
   * non-negative first and a non-positive second column of which at most one is non-zero.
   */
  lemma ProfitLossFromIncomeExpenses(txs: seq<Txn>, mode: RangeMode, asOf: AsOf)
    ensures var pl, ie := CalculateProfitLoss(txs, mode, asOf), CalculateIncomeExpenses(txs, mode, asOf);
      |pl| == |ie|
      && forall i :: 0 <= i < |pl| ==>
           pl[i].title == ie[i].title
           && pl[i].first + pl[i].second == ie[i].first - ie[i].second
           && pl[i].first >= 0 && pl[i].second <= 0 && (pl[i].first == 0 || pl[i].second == 0)
  {
  }

  /** The transactions dated in year `y`. */
  function InYear(txs: seq<Txn>, y: nat): (r: seq<Txn>)
    ensures forall t :: t in r <==> t in txs && t.year == y
  {
    if txs == [] then []
    else
      assert txs == [txs[0]] + txs[1..];
      (if txs[0].year == y then [txs[0]] else []) + InYear(txs[1..], y)
  }

  lemma {:induction false} GroupByPeriodInYear(txs: seq<Txn>, asOf: AsOf, debit: bool)
    ensures GroupByPeriod(txs, Year, asOf, debit) == GroupByPeriod(InYear(txs, asOf.year), Year, asOf, debit)
  {
    if txs != [] {
      GroupByPeriodInYear(txs[1..], asOf, debit);
      var r := InYear(txs, asOf.year);
      if txs[0].year == asOf.year {
        assert r[0] == txs[0] && r[1..] == InYear(txs[1..], asOf.year);
      } else {
        assert r == InYear(txs[1..], asOf.year);
      }
    }
  }

  /** A year report depends only on the transactions of the as-of year. */
  lemma YearReportIgnoresOtherYears(txs: seq<Txn>, asOf: AsOf)
    ensures CalculateProfitLoss(txs, Year, asOf) == CalculateProfitLoss(InYear(txs, asOf.year), Year, asOf)
    ensures CalculateIncomeExpenses(txs, Year, asOf) == CalculateIncomeExpenses(InYear(txs, asOf.year), Year, asOf)
  {
    GroupByPeriodInYear(txs, asOf, true);
    GroupByPeriodInYear(txs, asOf, false);
  }

  /** Without transactions an all-time report is the single row of the as-of year, all zeros. */
  lemma EmptyAllTimeReport(asOf: AsOf)
    ensures CalculateProfitLoss([], All, asOf) == [Row(IntToString(asOf.year), 0, 0)]
    ensures CalculateIncomeExpenses([], All, asOf) == [Row(IntToString(asOf.year), 0, 0)]
  {
  }

  /** Without transactions a year report has one zero row per month from January through the as-of month. */
  lemma EmptyYearReport(asOf: AsOf)
    ensures CalculateProfitLoss([], Year, asOf) == seq(asOf.month, i requires 0 <= i < asOf.month => Row(MonthAbbrev(i + 1), 0, 0))
    ensures CalculateIncomeExpenses([], Year, asOf) == seq(asOf.month, i requires 0 <= i < asOf.month => Row(MonthAbbrev(i + 1), 0, 0))
  {
    ReportPeriodsSpan([], Year, asOf);
  }
}
