# Finance reports and transactions, modelled in Dafny

This project models two parts of a personal finance web application:

- **The report engine.** It produces the profit/loss table and the income/expenses table. Each table has one row per period: a month of the as-of year in a *year* report, or a year in an *all* report.
  - It labels periods (`period_value`).
  - It finds the first point that matches a period (`get_value_for_period`).
  - It generates the period sequence (`calculate_period`).
  - It sums a user's transactions per period, debits and credits apart.
  - It lays both tables out on the period sequence.
- **The transaction record.** This covers:
  - its validation rules;
  - the `Uncategorized` default category;
  - the casts of the amount and date texts assigned to it;
  - the sign filter applied on save (a debit is stored negative, a credit positive);
  - the CSV export of a list of transactions.

Files, one module each:

| file | module | what it holds |
|---|---|---|
| `wrappers.dfy` | `Wrappers` | `Option` |
| `decimal.dfy` | `Decimal` | Ruby's `Integer#to_s` and its inverse; amounts in cents written with two decimals and read back |
| `calendar.dfy` | `Calendar` | dates, month names and abbreviations, `strftime("%d %b %Y")` and the date text cast |
| `report.dfy` | `Report` | the report engine |
| `report_examples.dfy` | `ReportExamples` | the documented report scenarios, proved on the model |
| `transaction.dfy` | `Transactions` | the record, its validity, its casts, the save filter, and the `Transaction` class with `Save` |
| `transaction_csv.dfy` | `TransactionCsv` | `to_csv`: row formatting, CSV quoting, skipping nils, and the line split |
| `transaction_examples.dfy` | `TransactionExamples` | the documented validation, save and export examples |

Modelling choices:

- **The clock.** The clock is an explicit `AsOf(year, month)` value.
- **The transaction store.** A user's transactions are a `seq<Txn>`.
- **Amounts.** Amounts are integer cents.
- **Reference sums.** `Report.PeriodTotal` is the reference definition of a period's sum. The grouping (`AddToPoints` folded over the transactions) is proved equal to it (`GroupByPeriodTotals`). Every statement about table rows is then phrased in terms of these sums.
- **Saving.** `Transactions.Transaction` is a class whose fields are the record's attributes. `Save` checks validity first. When the record is valid, `Save` applies the sign filter, as a `before_save` callback does after validation. An invalid record is not saved and keeps its attributes.
- **Profit/loss columns.** A profit/loss row holds the net (income minus expenses) in its first column when the net is positive and in its second column when it is negative (spec/services/report_spec.rb:109-123 and 158-169). For example, Feb has credits 275 and debits 40, and its row is `["Feb", 235, 0]`.
- **Associations.** `Transactions.AssignCategory` and `Transactions.AssignUser` model the association writers `category =` and `user =`: each sets the association and its foreign key together. `ClearCategoryId` and `ClearUserId` model `category_id = nil` and `user_id = nil`, after which the association reads back as nil. All four keep `Linked`, the agreement of each association with its key.

## Model

| member | source | states |
|---|---|---|
| Report.PeriodValue | spec/services/report_spec.rb:5-31 | in a year report, a month's label is the first three letters of its name; in an all report, the label reads back (as an integer) as the year itself |
| Report.MonthLabelsInOrder | spec/services/report_spec.rb:7-20 | periods 1..12 are labelled Jan, Feb, ..., Dec in this order |
| Report.MonthLabelsDistinct | spec/services/report_spec.rb:7-20 | two different months never get the same label |
| Report.YearLabelUnchanged | spec/services/report_spec.rb:24-30 | a year given by its digits is labelled with exactly those digits (2011 -> "2011", 1867 -> "1867") |
| Report.GetValueForPeriod | spec/services/report_spec.rb:34-50 | the result is the value of the first point with the requested key, and 0 when no point has that key |
| Report.AddToPoints | spec/services/report_spec.rb:109-123 | adding an amount for a period adds that period to the keys and keeps the keys free of duplicates |
| Report.GetValueAfterAdd | spec/services/report_spec.rb:109-123 | after adding, the lookup of the period grows by the amount and every other period's lookup is unchanged |
| Report.GroupByPeriod | spec/services/report_spec.rb:109-123 | the grouped points have one point per period, and their keys are exactly the periods in which transactions of that kind (debit or credit) fall |
| Report.GroupByPeriodTotals | spec/services/report_spec.rb:149-169 | looking a period up in the grouped points gives the sum of that period's transactions of the kind; the proof is by induction against the reference sum `PeriodTotal` |
| Report.PeriodTotalQuiet | spec/services/report_spec.rb:125-131 | a period with no transaction of the kind sums to zero |
| Report.PeriodTotalSign | spec/services/report_spec.rb:214-228 | when stored amounts are sign-normalized, credits sum to at least zero and debits to at most zero |
| Report.Range | spec/services/report_spec.rb:55-62 | `Range(lo, hi)` is lo, lo+1, ..., hi-1 |
| Report.MinPeriod | spec/services/report_spec.rb:78-92 | the result is a key of the points and no key is smaller |
| Report.CalculatePeriod | spec/services/report_spec.rb:53-94 | year: months 1..as-of month; all with no points: just the as-of year; otherwise every year from the earliest key of either list through the as-of year |
| Report.CalculatePeriodContiguous | spec/services/report_spec.rb:78-92 | the periods ascend without gaps; an all-time sequence ends at the as-of year and contains every key up to it, whichever list the key comes from |
| Report.ReportPeriods | spec/services/report_spec.rb:137-147 | the periods of a year report are month numbers 1..12 |
| Report.ReportPeriodsSpan | spec/services/report_spec.rb:100-147 | a year report covers months 1..as-of month; an all report covers the years from the earliest transaction through the as-of year, or only the as-of year when there are no transactions |
| Report.ProfitLossRows | spec/services/report_spec.rb:96-199 | one row per period: the period's label, then income minus expenses in the first column when positive and in the second when negative, zero elsewhere |
| Report.IncomeExpensesRows | spec/services/report_spec.rb:201-304 | one row per period: the period's label, the sum of its credits, and the magnitude of the sum of its debits |
| Report.QuietPeriodRows | spec/services/report_spec.rb:125-131 | a period without transactions in scope gets a row of zeros in both tables |
| Report.QuietMonthsAfter | spec/services/report_spec.rb:170-196 | in a year report, every month after the last month with transactions in that year gets a row of zeros in both tables |
| Report.IncomeExpensesNonNegative | spec/services/report_spec.rb:214-228 | when stored amounts are sign-normalized, both income/expenses columns are non-negative |
| Report.ProfitLossFromIncomeExpenses | spec/services/report_spec.rb:116-123 | the two tables have the same periods and labels; each profit/loss row splits income minus expenses of the matching income/expenses row into a non-negative first and a non-positive second column, at most one of them non-zero |
| Report.InYear | spec/services/report_spec.rb:149-158 | the transactions kept are exactly those dated in the given year |
| Report.GroupByPeriodInYear | spec/services/report_spec.rb:149-158 | grouping for a year report sees only the transactions of the as-of year |
| Report.YearReportIgnoresOtherYears | spec/services/report_spec.rb:149-158 | both year-report tables are unchanged when transactions of other years are dropped |
| Report.EmptyAllTimeReport | spec/services/report_spec.rb:100-107 | with no transactions, both all-time tables are the single row `[as-of year, 0, 0]` |
| Report.EmptyYearReport | spec/services/report_spec.rb:138-147 | with no transactions, both year tables (the income/expenses one at lines 243-252) have one row per month from January through the as-of month, labelled with the month's abbreviation, all zeros |
| Report.CalculateProfitLoss | spec/services/report_spec.rb:96-199 | one row per report period, titled with the period's label; the first column is never negative, the second never positive, and at most one of them is non-zero (values in `ProfitLossRows`) |
| Report.CalculateIncomeExpenses | spec/services/report_spec.rb:201-304 | one row per report period, titled with the period's label (values in `IncomeExpensesRows`) |
| ReportExamples.AllTimePeriods | spec/services/report_spec.rb:109-133 | for the five documented transactions and any as-of year from 2011 on, the all-time periods are 2010, 2011, ..., the as-of year |
| ReportExamples.AllTimeTotals | spec/services/report_spec.rb:214-228 | the per-year income and expense sums of those transactions are 80/60 (2010), 75/100 (2011), and 0/0 in every other year |
| ReportExamples.AllTimeProfitLoss | spec/services/report_spec.rb:109-133 | for any as-of year from 2011 on, the all-time profit/loss table has as-of year - 2009 rows: ["2010", 20, 0], ["2011", 0, -25], then a zero row titled with each later year's `to_s` |
| ReportExamples.AllTimeIncomeExpenses | spec/services/report_spec.rb:214-238 | for any as-of year from 2011 on, the all-time income/expenses table has as-of year - 2009 rows: ["2010", 80, 60], ["2011", 75, 100], then a zero row titled with each later year's `to_s` |
| ReportExamples.PeriodTotalCons | spec/services/report_spec.rb:149-158 | the sum over a history that starts with one transaction is that transaction's share plus the sum over the rest |
| ReportExamples.QuarterTotals | spec/services/report_spec.rb:149-158 | the monthly sums of the seven documented transactions of one year: Jan 80/20, Feb 275/40, Mar 0/150 |
| ReportExamples.QuarterProfitLossFirstMonths | spec/services/report_spec.rb:158-169 | the year profit/loss table has 12 rows, starting Jan [60, 0], Feb [235, 0], Mar [0, -150] |
| ReportExamples.QuarterProfitLoss | spec/services/report_spec.rb:158-197 | as above, and Apr..Dec are zero rows |
| ReportExamples.QuarterIncomeExpensesFirstMonths | spec/services/report_spec.rb:263-274 | the year income/expenses table has 12 rows, starting Jan [80, 20], Feb [275, 40], Mar [0, 150] |
| ReportExamples.QuarterIncomeExpenses | spec/services/report_spec.rb:263-302 | as above, and Apr..Dec are zero rows |
| Decimal.NatToString | spec/services/report_spec.rb:24-30 | the text is a canonical digit string (no leading zero) whose value is the number |
| Decimal.NatToStringOfDigits | spec/services/report_spec.rb:24-30 | writing out the value of a canonical digit string gives the same string back |
| Decimal.LeadingDigitPositive | spec/services/report_spec.rb:24-30 | a canonical digit string whose first digit is not zero has a positive value |
| Decimal.IntToString | spec/services/report_spec.rb:24-30 | `to_s` is a minus sign exactly for a negative number, followed by the canonical digits of its magnitude (round trip in `ParseIntToString`) |
| Decimal.ParseIntToString | spec/services/report_spec.rb:24-30 | every integer reads back from its `to_s` text |
| Decimal.TwoDigits | spec/models/transaction_spec.rb:137-138 | a two-character digit string with the value of the number (`%02d`) |
| Decimal.ZeroPad | spec/models/transaction_spec.rb:137-138 | the text is padded on the left with zeros up to the width, and the original text is its suffix |
| Decimal.IndexOf | spec/models/transaction_spec.rb:45 | the position of the first occurrence of the character, or the length when it does not occur |
| Decimal.FormatCents | spec/models/transaction_spec.rb:137-138 | `"%.2f"` of an amount: a minus sign exactly when it is negative, canonical whole digits, a point, and exactly two decimal digits (round trip in `ParseFormatCents`) |
| Decimal.ParseFormatCents | spec/models/transaction_spec.rb:137-138 | every amount written with two decimals reads back as the same number of cents |
| Calendar.MonthAbbrev | spec/models/transaction_spec.rb:137-138 | `%b` is three characters: the first three letters of the month's name |
| Calendar.MonthFromAbbrev | spec/models/transaction_spec.rb:58 | reading an abbreviation gives the month whose abbreviation it is, and nothing for any other text |
| Calendar.MonthAbbrevInjective | spec/models/transaction_spec.rb:58 | different months have different abbreviations |
| Calendar.ParseDate | spec/models/transaction_spec.rb:58 | a date read from text is a date the calendar has |
| Calendar.FormatDate | spec/models/transaction_spec.rb:137-138 | "%d %b %Y": two day digits, a space, the month's abbreviation, a space, then the year (round trip in `ParseFormatDate`) |
| Calendar.ParseFormatDate | spec/models/transaction_spec.rb:58 | every calendar date with a four-digit year reads back from its "DD Mon YYYY" text |
| Transactions.CategoryOf | spec/models/transaction_spec.rb:34-40 | a transaction without a category has a category named `Uncategorized`; otherwise its own category |
| Transactions.AssignCategory | spec/models/transaction_spec.rb:34-35 | `category =` sets the category and its key to the category's id (nil for nil), changes nothing else, and keeps associations and keys in agreement |
| Transactions.AssignUser | spec/models/transaction_spec.rb:105-108 | `user =` sets the user and its key to the user's id (nil for nil), changes nothing else, and keeps associations and keys in agreement |
| Transactions.ClearCategoryId | spec/models/transaction_spec.rb:110-119 | `category_id = nil` leaves neither key nor category, changes nothing else, and keeps associations and keys in agreement |
| Transactions.ClearUserId | spec/models/transaction_spec.rb:100-103 | `user_id = nil` leaves neither key nor user, changes nothing else, and keeps associations and keys in agreement |
| Transactions.IsValid | spec/models/transaction_spec.rb:64-119 | `valid?` (no `Violations`) holds exactly when: the description is not blank and is at most 255 characters; the date, a non-zero amount, the debit flag, the user id and the user are all present; and the category id is present unless category validation is skipped |
| Transactions.ValidityRules | spec/models/transaction_spec.rb:64-119 | the set of violated rules is empty exactly under the conditions listed for `IsValid` |
| Transactions.SkipCategoryValidation | spec/models/transaction_spec.rb:115-119 | with category validation skipped, clearing the category id with `ClearCategoryId` does not change validity |
| Transactions.CastAmount | spec/models/transaction_spec.rb:80-83 | blank text assigns no amount |
| Transactions.CastDate | spec/models/transaction_spec.rb:75-78 | blank text assigns no date, and an assigned date is a calendar date |
| Transactions.CastFormattedAmount | spec/models/transaction_spec.rb:45-52 | every amount in cents reads back from its two-decimal text |
| Transactions.CastFormattedDate | spec/models/transaction_spec.rb:58 | every calendar date with a four-digit year reads back from its "DD Mon YYYY" text |
| Transactions.SignedAmount | spec/models/transaction_spec.rb:42-55 | the stored amount has the given magnitude; it is non-positive for a debit and non-negative for a credit |
| Transactions.SignedAmountByFlagOnly | spec/models/transaction_spec.rb:42-55 | the stored amount does not depend on the sign that was given ("23.45" and "-23.45" store the same), and applying the filter twice changes nothing |
| Transactions.SaveFilter | spec/models/transaction_spec.rb:42-55 | only the amount changes: it keeps its magnitude and takes the sign of the debit flag |
| Transactions.SaveFilterKeepsValidity | spec/models/transaction_spec.rb:42-55 | a valid record stays valid under the save filter, and the filter is idempotent |
| Transactions.SavedRecordIsNormalized | spec/models/transaction_spec.rb:42-55 | a saved record meets the sign convention the reports rely on |
| Transactions.Transaction.constructor | spec/models/transaction_spec.rb:19 | a built transaction holds the given attributes |
| Transactions.Transaction.AssignAmount | spec/models/transaction_spec.rb:45 | assigning amount text sets the amount to the cast of the text and changes nothing else |
| Transactions.Transaction.AssignDate | spec/models/transaction_spec.rb:58 | assigning date text sets the date to the cast of the text and changes nothing else |
| Transactions.Transaction.Save | spec/models/transaction_spec.rb:42-55 | saving succeeds exactly when the record is valid; a saved record is the sign-filtered record, still valid; a rejected record keeps its attributes |
| TransactionCsv.DoubleQuotes | spec/models/transaction_spec.rb:131-139 | doubling quotes keeps every character other than the quote |
| TransactionCsv.UndoubleDoubleQuotes | spec/models/transaction_spec.rb:131-139 | doubling the quotes and then undoing it gives the field back |
| TransactionCsv.QuoteField | spec/models/transaction_spec.rb:131-139 | a non-empty field without separators, quotes or line breaks is written as it is; any other field, the empty one included, is wrapped in quotes |
| TransactionCsv.QuoteFieldRoundTrip | spec/models/transaction_spec.rb:131-139 | every field reads back from its quoted form, and quoting adds no line break |
| TransactionCsv.CsvAmount | spec/models/transaction_spec.rb:137-138 | an amount is written exactly when the transaction has one |
| TransactionCsv.CsvAmountReadsBack | spec/models/transaction_spec.rb:137-138 | the written amount reads back as the amount signed by the debit flag (97 -> 97.00, a debit of 65.3 -> -65.30) |
| TransactionCsv.CsvRow | spec/models/transaction_spec.rb:131-139 | a transaction has a line exactly when it has a date and an amount |
| TransactionCsv.CsvRowFields | spec/models/transaction_spec.rb:131-139 | every line holds, in this order and separated by commas, the "DD Mon YYYY" date, the quoted category name, the quoted description and the amount signed by the debit flag with two decimals (`FieldsAt` gives each field's position) |
| TransactionCsv.CsvRowReadsBack | spec/models/transaction_spec.rb:131-139 | the category name, the description and the signed amount each read back from their field of the line |
| TransactionCsv.CsvRowUnchangedBySave | spec/models/transaction_spec.rb:124-139 | an unsaved valid transaction and the same transaction after saving export the same line |
| TransactionCsv.Present | spec/models/transaction_spec.rb:141-150 | the present transactions are exactly the non-nil entries |
| TransactionCsv.RowLinesOfPresent | spec/models/transaction_spec.rb:141-150 | there is one line for each present transaction, in input order; the export fails exactly when a present transaction cannot be formatted |
| TransactionCsv.CsvLinesShape | spec/models/transaction_spec.rb:131-150 | the export is the header line followed by one line per non-nil transaction, in input order; it exists exactly when each of them has a date and an amount |
| TransactionCsv.ToCsv | spec/models/transaction_spec.rb:131-150 | the export exists exactly when every non-nil transaction has a date and an amount, and it starts with the header line |
| TransactionCsv.SplitJoinLines | spec/models/transaction_spec.rb:134 | splitting the joined lines at line breaks gives back the lines, when no line holds a line break |
| TransactionCsv.NoNewlineInRow | spec/models/transaction_spec.rb:134-138 | a transaction's line holds no line break when its description and category name hold none |
| TransactionCsv.SplitCsv | spec/models/transaction_spec.rb:131-139 | when no description or category name holds a line break, splitting the export gives the header plus one line per non-nil transaction |
| TransactionExamples.Built | spec/models/transaction_spec.rb:19-32 | the transaction built before each example is valid, and its associations agree with their keys |
| TransactionExamples.DescriptionRules | spec/models/transaction_spec.rb:65-73 | for every valid transaction, a blank description or one of 256 characters makes it invalid |
| TransactionExamples.NonNumericAmount | spec/models/transaction_spec.rb:90-93 | text that starts with neither a digit nor a minus sign assigns no amount |
| TransactionExamples.AttributeRules | spec/models/transaction_spec.rb:75-119 | for every valid transaction: blank date or amount text, a zero amount, 'foobar', a missing debit flag, `user_id = nil`, `user = nil` or `category_id = nil` makes it invalid; skipping category validation makes it valid after `category_id = nil` |
| TransactionExamples.NilCategoryName | spec/models/transaction_spec.rb:34-40 | after `category = nil`, the category name is 'Uncategorized' |
| TransactionExamples.SaveDebit | spec/models/transaction_spec.rb:43-48 | saving a debit assigned "23.45" succeeds and stores -23.45 |
| TransactionExamples.SaveCredit | spec/models/transaction_spec.rb:50-55 | saving a credit assigned "-23.45" succeeds and stores 23.45 |
| TransactionExamples.AmountText | spec/models/transaction_spec.rb:45-52 | "23.45" casts to 2345 cents and "-23.45" to -2345 |
| TransactionExamples.IncomeRow | spec/models/transaction_spec.rb:124-137 | the income of 97 on 29 Jun 2012 exports as "29 Jun 2012,the category,desc 1,97.00" |
| TransactionExamples.DebitRow | spec/models/transaction_spec.rb:126-138 | the debit of 65.3 on 26 Jun 2012 exports as "26 Jun 2012,the category,desc 2,-65.30" |
| TransactionExamples.ExportOfTwo | spec/models/transaction_spec.rb:131-150 | two formattable transactions, with or without a trailing nil, export as the header line and their two lines |
| TransactionExamples.ExportIncomeAndDebit | spec/models/transaction_spec.rb:131-150 | splitting the export of the two documented transactions, with or without a nil, gives 3 lines: the header, the income line and the debit line |

## Left out

- app/services/report.rb and app/models/transaction.rb are not part of this model. Their behaviour is taken from the two spec files that test them.
- **Database, user lookup and FactoryGirl.** These are left out. `txs` stands for "the transactions of the user". Lemmas that need it require stored transactions to meet the save filter's sign convention (`Report.Normalized`).
- **The wall clock.** `Time.now` becomes the `AsOf` parameter. Its day is dropped because no period depends on it.
- **Time of day.** The time of day attached to a saved date (spec/models/transaction_spec.rb:57-61) is left out. `Date` has no time part, and the time comes from the clock.
- **Other range modes.** Range modes other than `year` and `all` cannot be expressed: `RangeMode` has only these two.
- Report.PeriodValue: requires a month in 1..12 in a year report. The source does not define other months.
- **Period keys.** Keys are integers. The stubbed points in the report scenarios carry string keys such as `'2010'` (spec/services/report_spec.rb:34-36 and 67-70). In an all report the label is the integer written out, which gives the same text (`YearLabelUnchanged`).
- **Years.** Years are natural numbers, so dates before year 0 cannot be expressed.
- **Order of grouped points.** The order of the grouped points is not modelled: `GroupByPeriod` builds them from the end of the sequence, so they come in reverse order of each period's last transaction. The order a database returns for a grouped query is not modelled either. The keys are distinct (`GroupByPeriod`), so the order does not change any lookup.
- **Calendar order.** The all-time case where every transaction lies after the as-of year yields no period, which is what an inverted Ruby range gives. The report lemmas do not require dates to be in calendar order.
- Transactions.CastAmount: only digits with at most two decimals and an optional leading minus are read.
  - Other forms Ruby's decimal cast accepts are not modelled, for example a leading `+`, exponents, surrounding white space, more than two decimals, a trailing point (`23.`) or a missing whole part (`.5`).
  - The `decimal(10,2)` column bound is not modelled.
  - Non-numeric text assigns no amount, which is invalid by the missing-amount rule. Rails may cast it to 0 instead, which is invalid by the zero-amount rule. Either way the record is invalid.
- Transactions.CastDate: only "D Mon YYYY" and "DD Mon YYYY" text is read. Other date forms Ruby parses are not modelled.
- Transactions.IsWhitespace: covers ASCII white space only. Ruby's `blank?` also treats Unicode spaces as blank.
- Record: a datatype whose fields can also be updated one at a time, so a record whose association and key disagree can be written. Only the setters (`AssignCategory`, `AssignUser`, `ClearCategoryId`, `ClearUserId`) keep them in agreement, and the examples use only those.
- **Persistence on save.** `Transaction.last` is modelled as the saved object's own attributes. Ids, timestamps and persistence are left out.
- TransactionCsv.CsvRow: gives no line for a non-nil transaction without a date or an amount. The Ruby formatter would raise an error there, and the model does not distinguish the two.
- TransactionCsv.SplitCsv: requires that no description or category name holds a line break. A quoted field may contain one, and then a plain line split breaks that row apart, in Ruby as in the model.
- **CSV writer options.** Only the default field separator, quote character and row separator are modelled.
- **Other specs.** The request specs for the transactions and static pages are left out. They test page rendering and navigation.
