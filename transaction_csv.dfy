/**
 * `Transaction.to_csv`: a header line, then one line per transaction that
 * is not nil, in input order, with the date as "DD Mon YYYY", the category
 * name, the description and the amount with two decimals, negative for debits.
 * Fields are quoted the way Ruby's CSV writer quotes them.
 */
module TransactionCsv {
  import opened Wrappers
  import opened Decimal
  import opened Calendar
  import opened Transactions

  const Header := "Date,Category,Description,Amount"

  // ---------------------------------------------------------------- fields

  /** Fields written in quotes: the empty field, and any field holding a separator, a quote or a line break. */
  predicate NeedsQuotes(f: string)
  {
    f == [] || exists i :: 0 <= i < |f| && (f[i] == ',' || f[i] == '"' || f[i] == '\n' || f[i] == '\r')
  }

  /** Each double quote written twice. */
  function DoubleQuotes(f: string): (r: string)
    ensures |r| >= |f|
    ensures forall c :: c != '"' ==> (c in r <==> c in f)
  {
    if f == [] then []
    else
      var rest := DoubleQuotes(f[1..]);
      assert f == [f[0]] + f[1..];
      (if f[0] == '"' then "\"\"" else [f[0]]) + rest
  }

  /** Removes the doubling of quotes; the inverse of `DoubleQuotes`. */
  function UndoubleQuotes(q: string): string
  {
    if q == [] then []
    else if |q| >= 2 && q[0] == '"' && q[1] == '"' then "\"" + UndoubleQuotes(q[2..])
    else [q[0]] + UndoubleQuotes(q[1..])
  }

  lemma {:induction false} UndoubleDoubleQuotes(f: string)
    ensures UndoubleQuotes(DoubleQuotes(f)) == f
  {
    if f != [] {
      UndoubleDoubleQuotes(f[1..]);
      var r := DoubleQuotes(f);
      if f[0] == '"' {
        assert r[2..] == DoubleQuotes(f[1..]);
      } else {
        assert r[1..] == DoubleQuotes(f[1..]);
      }
    }
  }

  /** A field as the CSV writer emits it. */
  function QuoteField(f: string): (q: string)
    ensures !NeedsQuotes(f) ==> q == f
    ensures NeedsQuotes(f) ==> |q| >= |f| + 2 && q[0] == '"' && q[|q| - 1] == '"'
    ensures f == [] ==> q == "\"\""
  {
    if NeedsQuotes(f) then "\"" + DoubleQuotes(f) + "\"" else f
  }

  /** Reads back one emitted field. */
  function UnquoteField(q: string): string
  {
    if |q| >= 2 && q[0] == '"' && q[|q| - 1] == '"' then UndoubleQuotes(q[1..|q| - 1]) else q
  }

  /** Every field reads back from its emitted form, and quoting adds no line break. */
  lemma QuoteFieldRoundTrip(f: string)
    ensures UnquoteField(QuoteField(f)) == f
    ensures '\n' in QuoteField(f) <==> '\n' in f
  {
    var q := QuoteField(f);
    if NeedsQuotes(f) {
      assert q[1..|q| - 1] == DoubleQuotes(f);
      UndoubleDoubleQuotes(f);
    }
  }

  // ---------------------------------------------------------------- rows

  /** The amount as exported: signed by the debit flag (credit when the flag is nil), two decimals. */
  function CsvAmount(r: Record): (s: Option<string>)
    ensures s.Some? <==> r.amount.Some?
  {
    match r.amount
    case None => None
    case Some(a) => Some(FormatCents(SignedAmount(r.isDebit == Some(true), a)))
  }

  /** The exported amount reads back as the stored amount, negative exactly for debits. */
  lemma CsvAmountReadsBack(r: Record)
    requires r.amount.Some?
    ensures CastAmount(CsvAmount(r).value) == Some(SignedAmount(r.isDebit == Some(true), r.amount.value))
  {
    CastFormattedAmount(SignedAmount(r.isDebit == Some(true), r.amount.value));
  }

  /**
   * The line of one transaction; a transaction without a date or an amount
   * cannot be formatted and gives none.
   */
  function CsvRow(r: Record): (line: Option<string>)
    ensures line.Some? <==> r.date.Some? && r.amount.Some?
  {
    if r.date.Some? && r.amount.Some? then
      Some(FormatDate(r.date.value) + "," + QuoteField(CategoryOf(r).name) + "," + QuoteField(r.description) + "," + CsvAmount(r).value)
    else None
  }

  /**
   * `line` holds the fields `d`, `c`, `e` and `a` in this order, each
   * followed by a comma but the last, at the positions their lengths give.
   */
  predicate FieldsAt(line: string, d: string, c: string, e: string, a: string)
  {
    var i, j, k := |d|, |d| + 1 + |c|, |d| + 2 + |c| + |e|;
    |line| == k + 1 + |a| && line[..i] == d && line[i] == ',' && line[i + 1..j] == c && line[j] == ','
    && line[j + 1..k] == e && line[k] == ',' && line[k + 1..] == a
  }

  /**
   * A transaction's line is its date, its quoted category name, its quoted
   * description and its signed two-decimal amount, separated by commas.
   */
  lemma CsvRowFields(r: Record)
    requires CsvRow(r).Some?
    ensures FieldsAt(CsvRow(r).value, FormatDate(r.date.value), QuoteField(CategoryOf(r).name), QuoteField(r.description),
                     FormatCents(SignedAmount(r.isDebit == Some(true), r.amount.value)))
  {
    FourFields(FormatDate(r.date.value), QuoteField(CategoryOf(r).name), QuoteField(r.description), CsvAmount(r).value);
  }

  /** The category, the description and the signed amount each read back from their field of the line. */
  lemma CsvRowReadsBack(r: Record)
    requires CsvRow(r).Some?
    ensures var line, d, c, e := CsvRow(r).value, FormatDate(r.date.value), QuoteField(CategoryOf(r).name), QuoteField(r.description);
      var i, j, k := |d|, |d| + 1 + |c|, |d| + 2 + |c| + |e|;
      UnquoteField(line[i + 1..j]) == CategoryOf(r).name && UnquoteField(line[j + 1..k]) == r.description
      && CastAmount(line[k + 1..]) == Some(SignedAmount(r.isDebit == Some(true), r.amount.value))
  {
    CsvRowFields(r);
    QuoteFieldRoundTrip(CategoryOf(r).name);
    QuoteFieldRoundTrip(r.description);
    CsvAmountReadsBack(r);
  }

  /** Four fields joined by commas sit at the positions their lengths give. */
  lemma FourFields(d: string, c: string, e: string, a: string)
    ensures FieldsAt(d + "," + c + "," + e + "," + a, d, c, e, a)
  {
    var line := d + "," + c + "," + e + "," + a;
    var i, j, k := |d|, |d| + 1 + |c|, |d| + 2 + |c| + |e|;
    assert line == (((((d + ",") + c) + ",") + e) + ",") + a;
    assert line[..i] == d;
    assert line[i + 1..j] == c;
    assert line[j + 1..k] == e;
    assert line[k + 1..] == a;
  }

  /** Exporting a built transaction or the same transaction after saving gives the same line. */
  lemma CsvRowUnchangedBySave(r: Record)
    requires IsValid(r)
    ensures CsvRow(SaveFilter(r)) == CsvRow(r)
  {
    ValidityRules(r);
    SignedAmountByFlagOnly(r.isDebit.value, r.amount.value);
  }

  /** Reference definition: the transactions that are not nil, in input order. */
  function Present(ts: seq<Option<Record>>): (rs: seq<Record>)
    ensures |rs| <= |ts|
    ensures forall r :: r in rs <==> Some(r) in ts
  {
    if ts == [] then []
    else
      assert ts == [ts[0]] + ts[1..];
      (if ts[0].Some? then [ts[0].value] else []) + Present(ts[1..])
  }

  /** The lines of the transactions, skipping nils; none when a present one cannot be formatted. */
  function RowLines(ts: seq<Option<Record>>): Option<seq<string>>
  {
    MapLines(ts, CsvRow)
  }

  /** The lines `line` gives the transactions, skipping nils; none when a present one has no line. */
  function MapLines(ts: seq<Option<Record>>, line: Record -> Option<string>): Option<seq<string>>
  {
    if ts == [] then Some([])
    else
      match ts[0]
      case None => MapLines(ts[1..], line)
      case Some(r) =>
        var l, rest := line(r), MapLines(ts[1..], line);
        if l.Some? && rest.Some? then Some([l.value] + rest.value) else None
  }

  /** The lines of the export: the header, then the transaction lines. */
  function CsvLines(ts: seq<Option<Record>>): Option<seq<string>>
  {
    var rows := RowLines(ts);
    if rows.Some? then Some([Header] + rows.value) else None
  }

  /** Each line terminated by a line break, as the CSV writer ends its rows. */
  function JoinLines(lines: seq<string>): string
  {
    if lines == [] then [] else lines[0] + "\n" + JoinLines(lines[1..])
  }

  /** `Transaction.to_csv`. */
  function ToCsv(ts: seq<Option<Record>>): (s: Option<string>)
    ensures s.Some? <==> forall r :: r in Present(ts) ==> r.date.Some? && r.amount.Some?
    ensures s.Some? ==> |s.value| > |Header| && s.value[..|Header| + 1] == Header + "\n"
  {
    CsvLinesShape(ts);
    var lines := CsvLines(ts);
    if lines.Some? then Some(JoinLines(lines.value)) else None
  }

  /**
   * Transaction lines appear exactly for the present transactions, in order;
   * the export fails exactly when a present transaction has no date or no amount.
   */
  lemma RowLinesOfPresent(ts: seq<Option<Record>>)
    ensures RowLines(ts).Some? <==> forall r :: r in Present(ts) ==> CsvRow(r).Some?
    ensures RowLines(ts).Some? ==>
      |RowLines(ts).value| == |Present(ts)|
      && forall k :: 0 <= k < |Present(ts)| ==> Some(RowLines(ts).value[k]) == CsvRow(Present(ts)[k])
  {
    MapLinesDefined(ts, CsvRow);
    MapLinesInOrder(ts, CsvRow);
  }

  lemma {:induction false} MapLinesDefined(ts: seq<Option<Record>>, line: Record -> Option<string>)
    ensures MapLines(ts, line).Some? <==> forall r :: r in Present(ts) ==> line(r).Some?
  {
    if ts != [] {
      MapLinesDefined(ts[1..], line);
      if ts[0].Some? {
        assert Present(ts) == [ts[0].value] + Present(ts[1..]);
      } else {
        assert Present(ts) == Present(ts[1..]);
      }
    }
  }

  lemma {:induction false} MapLinesInOrder(ts: seq<Option<Record>>, line: Record -> Option<string>)
    ensures MapLines(ts, line).Some? ==>
      |MapLines(ts, line).value| == |Present(ts)|
      && forall k :: 0 <= k < |Present(ts)| ==> Some(MapLines(ts, line).value[k]) == line(Present(ts)[k])
  {
    if ts != [] && MapLines(ts, line).Some? {
      MapLinesInOrder(ts[1..], line);
      var p, p' := Present(ts), Present(ts[1..]);
      if ts[0].Some? {
        var rest := MapLines(ts[1..], line);
        var rows := MapLines(ts, line).value;
        assert rows == [line(ts[0].value).value] + rest.value;
        assert p == [ts[0].value] + p';
        forall k | 0 <= k < |p| ensures Some(rows[k]) == line(p[k]) {
          if k > 0 {
            assert rows[k] == rest.value[k - 1] && p[k] == p'[k - 1];
          }
        }
      } else {
        assert p == p';
      }
    }
  }

  /** The export is the header followed by one line per present transaction, in input order. */
  lemma CsvLinesShape(ts: seq<Option<Record>>)
    ensures CsvLines(ts).Some? <==> forall r :: r in Present(ts) ==> r.date.Some? && r.amount.Some?
    ensures CsvLines(ts).Some? ==>
      var lines := CsvLines(ts).value;
      |lines| == 1 + |Present(ts)| && lines[0] == Header
      && forall k :: 0 <= k < |Present(ts)| ==> Some(lines[k + 1]) == CsvRow(Present(ts)[k])
  {
    RowLinesOfPresent(ts);
    forall r | r in Present(ts) ensures CsvRow(r).Some? <==> r.date.Some? && r.amount.Some? { }
  }

  // ---------------------------------------------------------------- reading the lines back

  /** Ruby's `split(/\n/)` without its removal of trailing empty lines. */
  function SplitLines(s: string): seq<string>
    decreases |s|
  {
    if s == [] then []
    else
      var k := IndexOf(s, '\n');
      if k == |s| then [s] else [s[..k]] + SplitLines(s[k + 1..])
  }

  /** Splitting the joined lines gives them back when no line holds a line break. */
  lemma {:induction false} SplitJoinLines(lines: seq<string>)
    requires forall i :: 0 <= i < |lines| ==> '\n' !in lines[i]
    ensures SplitLines(JoinLines(lines)) == lines
  {
    if lines != [] {
      SplitFirst(lines[0], JoinLines(lines[1..]));
      SplitJoinLines(lines[1..]);
    }
  }

  /** A line without a break, a break, then the rest: splitting yields the line first. */
  lemma SplitFirst(l: string, t: string)
    requires '\n' !in l
    ensures SplitLines(l + "\n" + t) == [l] + SplitLines(t)
  {
    var s := l + "\n" + t;
    assert s == l + ("\n" + t);
    assert s[|l|] == '\n';
    forall i | 0 <= i < |l| ensures s[i] != '\n' { assert s[i] == l[i]; }
    assert IndexOf(s, '\n') == |l|;
    assert s[..|l|] == l;
    assert s[|l| + 1..] == t;
  }

  lemma DigitsHaveNoBreak(s: string)
    requires AllDigits(s)
    ensures '\n' !in s
  {
  }

  lemma DateHasNoBreak(d: Date)
    ensures '\n' !in FormatDate(d)
  {
    var y := NatToString(d.year);
    var p := ZeroPad(y, 4);
    assert AllDigits(p) by {
      forall i | 0 <= i < |p| ensures IsDigit(p[i]) {
        if i >= |p| - |y| {
          assert p[i] == p[|p| - |y|..][i - (|p| - |y|)];
        }
      }
    }
    DigitsHaveNoBreak(p);
    DigitsHaveNoBreak(TwoDigits(d.day));
    var m := MonthAbbrev(d.month);
    assert '\n' !in m by {
      assert m == MonthName(d.month)[..3];
    }
  }

  lemma AmountHasNoBreak(c: int)
    ensures '\n' !in FormatCents(c)
  {
    var m := if c < 0 then -c else c;
    DigitsHaveNoBreak(NatToString(m / 100));
    DigitsHaveNoBreak(TwoDigits(m % 100));
  }

  lemma NoNewlineInRow(r: Record)
    requires CsvRow(r).Some?
    requires '\n' !in r.description && '\n' !in CategoryOf(r).name
    ensures '\n' !in CsvRow(r).value
  {
    var d := FormatDate(r.date.value);
    var c := QuoteField(CategoryOf(r).name);
    var e := QuoteField(r.description);
    var a := FormatCents(SignedAmount(r.isDebit == Some(true), r.amount.value));
    assert CsvRow(r).value == d + "," + c + "," + e + "," + a;
    QuoteFieldRoundTrip(r.description);
    QuoteFieldRoundTrip(CategoryOf(r).name);
    DateHasNoBreak(r.date.value);
    AmountHasNoBreak(SignedAmount(r.isDebit == Some(true), r.amount.value));
    assert '\n' !in d && '\n' !in c && '\n' !in e && '\n' !in a;
  }

  lemma LinesHaveNoBreak(ts: seq<Option<Record>>)
    requires CsvLines(ts).Some?
    requires forall r :: r in Present(ts) ==> '\n' !in r.description && '\n' !in CategoryOf(r).name
    ensures forall i :: 0 <= i < |CsvLines(ts).value| ==> '\n' !in CsvLines(ts).value[i]
  {
    var lines := CsvLines(ts).value;
    forall i | 0 <= i < |lines| ensures '\n' !in lines[i] {
      LineHasNoBreak(ts, i);
    }
  }

  lemma LineHasNoBreak(ts: seq<Option<Record>>, i: int)
    requires CsvLines(ts).Some? && 0 <= i < |CsvLines(ts).value|
    requires forall r :: r in Present(ts) ==> '\n' !in r.description && '\n' !in CategoryOf(r).name
    ensures '\n' !in CsvLines(ts).value[i]
  {
    if i > 0 {
      var rows := RowLines(ts).value;
      assert CsvLines(ts).value[i] == rows[i - 1];
      RowLinesOfPresent(ts);
      var r := Present(ts)[i - 1];
      assert Some(rows[i - 1]) == CsvRow(r);
      assert r in Present(ts);
      NoNewlineInRow(r);
    }
  }

  /**
   * When no description or category name holds a line break, splitting the
   * export on line breaks gives the header and one line per present transaction.
   */
  lemma SplitCsv(ts: seq<Option<Record>>)
    requires ToCsv(ts).Some?
    requires forall r :: r in Present(ts) ==> '\n' !in r.description && '\n' !in CategoryOf(r).name
    ensures SplitLines(ToCsv(ts).value) == CsvLines(ts).value
    ensures |SplitLines(ToCsv(ts).value)| == 1 + |Present(ts)|
  {
    CsvLinesShape(ts);
    var lines := CsvLines(ts).value;
    assert ToCsv(ts).value == JoinLines(lines);
    LinesHaveNoBreak(ts);
    SplitJoinLines(lines);
  }
}
