/**
 * The scenarios of spec/services/report_spec.rb, stated on the model:
 * five transactions over 2010 and 2011 in an all-time report, and seven
 * transactions over the first quarter of 2010 in a year report as of December 2010.
 * Amounts are in cents, stored with the sign the save filter gives them.
 */
module ReportExamples {
  import opened Report
  import Decimal

  function TwoYears(): seq<Txn>
  {
    [ Txn(-2000, true, 2010, 1), Txn(-4000, true, 2010, 2), Txn(-10000, true, 2011, 3),
      Txn(8000, false, 2010, 1), Txn(7500, false, 2011, 2) ]
  }

  /** The first-quarter transactions, dated in year `y` (2010 in the scenarios of spec/services/report_spec.rb). */
  function FirstQuarter(y: nat): seq<Txn>
  {
    [ Txn(-2000, true, y, 1), Txn(-4000, true, y, 2), Txn(-10000, true, y, 3),
      Txn(-5000, true, y, 3), Txn(8000, false, y, 1), Txn(7500, false, y, 2),
      Txn(20000, false, y, 2) ]
  }

  /** The all-time example covers 2010 and 2011 only. */
  lemma TwoYearsSpan()
    ensures TwoYears() != [] && MinYear(TwoYears()) == 2010
    ensures forall t :: t in TwoYears() ==> 2010 <= t.year <= 2011
  {
    var txs := TwoYears();
    assert txs[0].year == 2010;
  }

  /** Whatever the current year from 2011 on, the all-time periods run from 2010 through it. */
  lemma AllTimePeriods(asOf: AsOf)
    requires asOf.year >= 2011
    ensures var periods := ReportPeriods(TwoYears(), All, asOf);
      |periods| == asOf.year - 2009 && forall k :: 0 <= k < |periods| ==> periods[k] == 2010 + k
  {
    TwoYearsSpan();
    ReportPeriodsSpan(TwoYears(), All, asOf);
  }

  /** Per year: 80 of income and 60 of expenses in 2010, 75 and 100 in 2011, nothing in any other year. */
  lemma AllTimeTotals(asOf: AsOf)
    ensures IncomeTotal(TwoYears(), All, asOf, 2010) == 8000 && ExpenseTotal(TwoYears(), All, asOf, 2010) == 6000
    ensures IncomeTotal(TwoYears(), All, asOf, 2011) == 7500 && ExpenseTotal(TwoYears(), All, asOf, 2011) == 10000
    ensures forall p :: p != 2010 && p != 2011 ==>
      IncomeTotal(TwoYears(), All, asOf, p) == 0 && ExpenseTotal(TwoYears(), All, asOf, p) == 0
  {
    var txs := TwoYears();
    forall debit: bool, p: int
      ensures PeriodTotal(txs, All, asOf, debit, p)
           == Share(txs[0], All, debit, asOf, p) + Share(txs[1], All, debit, asOf, p) + Share(txs[2], All, debit, asOf, p)
            + Share(txs[3], All, debit, asOf, p) + Share(txs[4], All, debit, asOf, p)
    {
      assert txs == [txs[0]] + txs[1..];
      PeriodTotalCons(txs[0], txs[1..], All, asOf, debit, p);
      assert txs[1..] == [txs[1]] + txs[2..];
      PeriodTotalCons(txs[1], txs[2..], All, asOf, debit, p);
      assert txs[2..] == [txs[2]] + txs[3..];
      PeriodTotalCons(txs[2], txs[3..], All, asOf, debit, p);
      assert txs[3..] == [txs[3]] + txs[4..];
      PeriodTotalCons(txs[3], txs[4..], All, asOf, debit, p);
      assert txs[4..] == [txs[4]] + [];
      PeriodTotalCons(txs[4], [], All, asOf, debit, p);
    }
  }

  lemma YearLabels()
    ensures PeriodValue(All, 2010) == "2010" && PeriodValue(All, 2011) == "2011"
  {
    assert Decimal.NatToString(2) == "2";
    assert Decimal.NatToString(20) == "20";
    assert Decimal.NatToString(201) == "201";
    assert Decimal.NatToString(2010) == "2010";
    assert Decimal.NatToString(2011) == "2011";
  }

  /** 2010 nets +20 and 2011 nets -25; every later year through the current one is a zero row. */
  lemma AllTimeProfitLoss(asOf: AsOf)
    requires asOf.year >= 2011
    ensures var rows := CalculateProfitLoss(TwoYears(), All, asOf);
      |rows| == asOf.year - 2009
      && rows[0] == Row("2010", 2000, 0)
      && rows[1] == Row("2011", 0, -2500)
      && forall k :: 2 <= k < |rows| ==> rows[k] == Row(Decimal.IntToString(2010 + k), 0, 0)
  {
    AllTimePeriods(asOf);
    AllTimeTotals(asOf);
    ProfitLossOfTotals(TwoYears(), asOf);
  }

  lemma LabelOfYear(p: int)
    ensures PeriodValue(All, p) == Decimal.IntToString(p)
  {
  }

  /** The profit/loss row of a year in an all-time report, from that year's totals. */
  lemma AllTimeProfitLossRow(txs: seq<Txn>, asOf: AsOf, k: int)
    requires 0 <= k < |ReportPeriods(txs, All, asOf)| && ReportPeriods(txs, All, asOf)[k] == 2010 + k
    ensures var net := IncomeTotal(txs, All, asOf, 2010 + k) - ExpenseTotal(txs, All, asOf, 2010 + k);
      CalculateProfitLoss(txs, All, asOf)[k]
        == Row(Decimal.IntToString(2010 + k), if net > 0 then net else 0, if net < 0 then net else 0)
  {
    var p := 2010 + k;
    var net := IncomeTotal(txs, All, asOf, p) - ExpenseTotal(txs, All, asOf, p);
    ProfitLossRows(txs, All, asOf);
    assert CalculateProfitLoss(txs, All, asOf)[k] == Row(PeriodValue(All, p), if net > 0 then net else 0, if net < 0 then net else 0);
    LabelOfYear(p);
  }

  /** The income/expenses row of a year in an all-time report, from that year's totals. */
  lemma AllTimeIncomeExpensesRow(txs: seq<Txn>, asOf: AsOf, k: int)
    requires 0 <= k < |ReportPeriods(txs, All, asOf)| && ReportPeriods(txs, All, asOf)[k] == 2010 + k
    ensures CalculateIncomeExpenses(txs, All, asOf)[k]
        == Row(Decimal.IntToString(2010 + k), IncomeTotal(txs, All, asOf, 2010 + k), ExpenseTotal(txs, All, asOf, 2010 + k))
  {
    IncomeExpensesRows(txs, All, asOf);
    LabelOfYear(2010 + k);
  }

  /** The profit/loss table of any all-time history whose periods and totals are those of the example. */
  lemma ProfitLossOfTotals(txs: seq<Txn>, asOf: AsOf)
    requires var periods := ReportPeriods(txs, All, asOf);
      |periods| == asOf.year - 2009 && asOf.year >= 2011 && forall k :: 0 <= k < |periods| ==> periods[k] == 2010 + k
    requires IncomeTotal(txs, All, asOf, 2010) == 8000 && ExpenseTotal(txs, All, asOf, 2010) == 6000
    requires IncomeTotal(txs, All, asOf, 2011) == 7500 && ExpenseTotal(txs, All, asOf, 2011) == 10000
    requires forall p :: p != 2010 && p != 2011 ==> IncomeTotal(txs, All, asOf, p) == 0 && ExpenseTotal(txs, All, asOf, p) == 0
    ensures var rows := CalculateProfitLoss(txs, All, asOf);
      |rows| == asOf.year - 2009
      && rows[0] == Row("2010", 2000, 0)
      && rows[1] == Row("2011", 0, -2500)
      && forall k :: 2 <= k < |rows| ==> rows[k] == Row(Decimal.IntToString(2010 + k), 0, 0)
  {
    var rows := CalculateProfitLoss(txs, All, asOf);
    YearLabels();
    AllTimeProfitLossRow(txs, asOf, 0);
    AllTimeProfitLossRow(txs, asOf, 1);
    forall k | 2 <= k < |rows|
      ensures rows[k] == Row(Decimal.IntToString(2010 + k), 0, 0)
    {
      AllTimeProfitLossRow(txs, asOf, k);
    }
  }

  /** 2010 has 80 of income and 60 of expenses, 2011 has 75 and 100; every later year is a zero row. */
  lemma AllTimeIncomeExpenses(asOf: AsOf)
    requires asOf.year >= 2011
    ensures var rows := CalculateIncomeExpenses(TwoYears(), All, asOf);
      |rows| == asOf.year - 2009
      && rows[0] == Row("2010", 8000, 6000)
      && rows[1] == Row("2011", 7500, 10000)
      && forall k :: 2 <= k < |rows| ==> rows[k] == Row(Decimal.IntToString(2010 + k), 0, 0)
  {
    AllTimePeriods(asOf);
    AllTimeTotals(asOf);
    IncomeExpensesOfTotals(TwoYears(), asOf);
  }

  /** The income/expenses table of any all-time history whose periods and totals are those of the example. */
  lemma IncomeExpensesOfTotals(txs: seq<Txn>, asOf: AsOf)
    requires var periods := ReportPeriods(txs, All, asOf);
      |periods| == asOf.year - 2009 && asOf.year >= 2011 && forall k :: 0 <= k < |periods| ==> periods[k] == 2010 + k
    requires IncomeTotal(txs, All, asOf, 2010) == 8000 && ExpenseTotal(txs, All, asOf, 2010) == 6000
    requires IncomeTotal(txs, All, asOf, 2011) == 7500 && ExpenseTotal(txs, All, asOf, 2011) == 10000
    requires forall p :: p != 2010 && p != 2011 ==> IncomeTotal(txs, All, asOf, p) == 0 && ExpenseTotal(txs, All, asOf, p) == 0
    ensures var rows := CalculateIncomeExpenses(txs, All, asOf);
      |rows| == asOf.year - 2009
      && rows[0] == Row("2010", 8000, 6000)
      && rows[1] == Row("2011", 7500, 10000)
      && forall k :: 2 <= k < |rows| ==> rows[k] == Row(Decimal.IntToString(2010 + k), 0, 0)
  {
    var rows := CalculateIncomeExpenses(txs, All, asOf);
    YearLabels();
    AllTimeIncomeExpensesRow(txs, asOf, 0);
    AllTimeIncomeExpensesRow(txs, asOf, 1);
    forall k | 2 <= k < |rows|
      ensures rows[k] == Row(Decimal.IntToString(2010 + k), 0, 0)
    {
      AllTimeIncomeExpensesRow(txs, asOf, k);
    }
  }

  /** What one transaction adds to a period of a report. */
  function Share(t: Txn, mode: RangeMode, debit: bool, asOf: AsOf, p: int): int
  {
    if Counts(t, mode, asOf, debit) && Key(t, mode) == p then t.amount else 0
  }

  lemma PeriodTotalCons(t: Txn, rest: seq<Txn>, mode: RangeMode, asOf: AsOf, debit: bool, p: int)
    ensures PeriodTotal([t] + rest, mode, asOf, debit, p)
         == (if Counts(t, mode, asOf, debit) && Key(t, mode) == p then t.amount else 0) + PeriodTotal(rest, mode, asOf, debit, p)
  {
    assert ([t] + rest)[1..] == rest;
  }

  lemma QuarterTotals(asOf: AsOf)
    ensures IncomeTotal(FirstQuarter(asOf.year), Year, asOf, 1) == 8000 && ExpenseTotal(FirstQuarter(asOf.year), Year, asOf, 1) == 2000
    ensures IncomeTotal(FirstQuarter(asOf.year), Year, asOf, 2) == 27500 && ExpenseTotal(FirstQuarter(asOf.year), Year, asOf, 2) == 4000
    ensures IncomeTotal(FirstQuarter(asOf.year), Year, asOf, 3) == 0 && ExpenseTotal(FirstQuarter(asOf.year), Year, asOf, 3) == 15000
  {
    var txs := FirstQuarter(asOf.year);
    forall debit: bool, p: int
      ensures PeriodTotal(txs, Year, asOf, debit, p)
           == Share(txs[0], Year, debit, asOf, p) + Share(txs[1], Year, debit, asOf, p) + Share(txs[2], Year, debit, asOf, p)
            + Share(txs[3], Year, debit, asOf, p) + Share(txs[4], Year, debit, asOf, p) + Share(txs[5], Year, debit, asOf, p)
            + Share(txs[6], Year, debit, asOf, p)
    {
      assert txs == [txs[0]] + txs[1..];
      PeriodTotalCons(txs[0], txs[1..], Year, asOf, debit, p);
      assert txs[1..] == [txs[1]] + txs[2..];
      PeriodTotalCons(txs[1], txs[2..], Year, asOf, debit, p);
      assert txs[2..] == [txs[2]] + txs[3..];
      PeriodTotalCons(txs[2], txs[3..], Year, asOf, debit, p);
      assert txs[3..] == [txs[3]] + txs[4..];
      PeriodTotalCons(txs[3], txs[4..], Year, asOf, debit, p);
      assert txs[4..] == [txs[4]] + txs[5..];
      PeriodTotalCons(txs[4], txs[5..], Year, asOf, debit, p);
      assert txs[5..] == [txs[5]] + txs[6..];
      PeriodTotalCons(txs[5], txs[6..], Year, asOf, debit, p);
      assert txs[6..] == [txs[6]] + [];
      PeriodTotalCons(txs[6], [], Year, asOf, debit, p);
    }
  }

  lemma QuarterProfitLossFirstMonths(asOf: AsOf)
    requires asOf.month == 12
    ensures var rows := CalculateProfitLoss(FirstQuarter(asOf.year), Year, asOf);
      |rows| == 12 && rows[0] == Row("Jan", 6000, 0) && rows[1] == Row("Feb", 23500, 0) && rows[2] == Row("Mar", 0, -15000)
  {
    var txs := FirstQuarter(asOf.year);
    ReportPeriodsSpan(txs, Year, asOf);
    ProfitLossRows(txs, Year, asOf);
    QuarterTotals(asOf);
  }

  /** January nets +60, February +235, March -150, the other months zero. */
  lemma QuarterProfitLoss(asOf: AsOf)
    requires asOf.month == 12
    ensures var rows := CalculateProfitLoss(FirstQuarter(asOf.year), Year, asOf);
      |rows| == 12
      && rows[0] == Row("Jan", 6000, 0)
      && rows[1] == Row("Feb", 23500, 0)
      && rows[2] == Row("Mar", 0, -15000)
      && forall i :: 3 <= i < 12 ==> rows[i] == Row(PeriodValue(Year, i + 1), 0, 0)
  {
    var txs := FirstQuarter(asOf.year);
    assert forall t :: t in txs && t.year == asOf.year ==> t.month <= 3;
    QuietMonthsAfter(txs, asOf, 3);
    QuarterProfitLossFirstMonths(asOf);
  }

  lemma QuarterIncomeExpensesFirstMonths(asOf: AsOf)
    requires asOf.month == 12
    ensures var rows := CalculateIncomeExpenses(FirstQuarter(asOf.year), Year, asOf);
      |rows| == 12 && rows[0] == Row("Jan", 8000, 2000) && rows[1] == Row("Feb", 27500, 4000) && rows[2] == Row("Mar", 0, 15000)
  {
    var txs := FirstQuarter(asOf.year);
    ReportPeriodsSpan(txs, Year, asOf);
    IncomeExpensesRows(txs, Year, asOf);
    QuarterTotals(asOf);
  }

  /** January has 80 of income and 20 of expenses, February 275 and 40, March 0 and 150. */
  lemma QuarterIncomeExpenses(asOf: AsOf)
    requires asOf.month == 12
    ensures var rows := CalculateIncomeExpenses(FirstQuarter(asOf.year), Year, asOf);
      |rows| == 12
      && rows[0] == Row("Jan", 8000, 2000)
      && rows[1] == Row("Feb", 27500, 4000)
      && rows[2] == Row("Mar", 0, 15000)
      && forall i :: 3 <= i < 12 ==> rows[i] == Row(PeriodValue(Year, i + 1), 0, 0)
  {
    var txs := FirstQuarter(asOf.year);
    assert forall t :: t in txs && t.year == asOf.year ==> t.month <= 3;
    QuietMonthsAfter(txs, asOf, 3);
    QuarterIncomeExpensesFirstMonths(asOf);
  }
}
