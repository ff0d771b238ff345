/**
 * The documented behaviour of a single transaction, stated for every valid
 * transaction where the behaviour is general and on the documented values
 * where it is an example.
 */
module TransactionExamples {
  import opened Wrappers
  import opened Calendar
  import opened Transactions
  import opened TransactionCsv

  /** A transaction as built before each example: valid, in a category named "the category". */
  function Built(): (r: Record)
    ensures IsValid(r) && Linked(r)
  {
    var r := Record("lunch", Some(Date(2012, 4, 11)), Some(1000), Some(false), Some(1),
           Some(Category(Some(1), "the category")), Some(7), Some(User(7)), false);
    assert !IsWhitespace(r.description[0]);
    ValidityRules(r);
    r
  }

  // ---------------------------------------------------------------- validations

  /** A blank description, or one longer than 255 characters, makes a valid transaction invalid. */
  lemma DescriptionRules(r: Record)
    requires IsValid(r)
    ensures !IsValid(r.(description := "   "))
    ensures !IsValid(r.(description := seq(256, _ => 'a')))
  {
    assert IsBlank("   ");
    ValidityRules(r.(description := "   "));
    ValidityRules(r.(description := seq(256, _ => 'a')));
  }

  /** A text whose first character is neither a digit nor a minus sign is not an amount. */
  lemma NonNumericAmount(text: string)
    requires |text| >= 1 && !Decimal.IsDigit(text[0]) && text[0] != '-'
    ensures CastAmount(text) == None
  {
    var k := Decimal.IndexOf(text, '.');
    if k > 0 {
      assert text[..k][0] == text[0];
    }
  }

  /** Blank or non-numeric texts, a zero amount and each missing attribute make a valid transaction invalid. */
  lemma AttributeRules(r: Record)
    requires IsValid(r)
    ensures !IsValid(r.(date := CastDate("  ")))
    ensures !IsValid(r.(amount := CastAmount("  ")))
    ensures !IsValid(r.(amount := Some(0)))
    ensures !IsValid(r.(amount := CastAmount("foobar")))
    ensures !IsValid(r.(isDebit := None))
    ensures !IsValid(ClearUserId(r))
    ensures !IsValid(AssignUser(r, None))
    ensures !IsValid(ClearCategoryId(r)) || r.skipCategoryValidation
    ensures IsValid(ClearCategoryId(r.(skipCategoryValidation := true)))
  {
    assert IsBlank("  ");
    NonNumericAmount("foobar");
  }

  /** A transaction without a category reports the category name `Uncategorized`. */
  lemma NilCategoryName(r: Record)
    ensures CategoryOf(AssignCategory(r, None)).name == "Uncategorized"
  {
  }

  // ---------------------------------------------------------------- save filters

  /** Saving a debit of "23.45" stores -23.45. */
  method SaveDebit() returns (saved: bool, stored: Option<int>)
    ensures saved && stored == Some(-2345)
  {
    var t := new Transaction(Built());
    t.isDebit := Some(true);
    t.AssignAmount("23.45");
    assert CastAmount("23.45") == Some(2345) by { AmountText(); }
    saved := t.Save();
    stored := t.amount;
  }

  /** Saving a credit of "-23.45" stores 23.45. */
  method SaveCredit() returns (saved: bool, stored: Option<int>)
    ensures saved && stored == Some(2345)
  {
    var t := new Transaction(Built());
    t.isDebit := Some(false);
    t.AssignAmount("-23.45");
    assert CastAmount("-23.45") == Some(-2345) by { AmountText(); }
    saved := t.Save();
    stored := t.amount;
  }

  lemma AmountText()
    ensures CastAmount("23.45") == Some(2345)
    ensures CastAmount("-23.45") == Some(-2345)
  {
    assert Decimal.NatToString(23) == "23" by {
      assert Decimal.NatToString(2) == "2";
    }
    assert Decimal.TwoDigits(45) == "45";
    assert Decimal.FormatCents(2345) == "23.45";
    assert Decimal.FormatCents(-2345) == "-23.45";
    CastFormattedAmount(2345);
    CastFormattedAmount(-2345);
  }

  // ---------------------------------------------------------------- export

  function Income(): Record
  {
    Built().(date := Some(Date(2012, 6, 29)), amount := Some(9700), isDebit := Some(false), description := "desc 1")
  }

  function Debit(): Record
  {
    Built().(date := Some(Date(2012, 6, 26)), amount := Some(6530), isDebit := Some(true), description := "desc 2")
  }

  lemma YearText()
    ensures Decimal.ZeroPad(Decimal.NatToString(2012), 4) == "2012"
  {
    assert Decimal.NatToString(2) == "2";
    assert Decimal.NatToString(20) == "20";
    assert Decimal.NatToString(201) == "201";
    assert Decimal.NatToString(2012) == "2012";
  }

  /** A day of June 2012 is written as its two digits followed by " Jun 2012". */
  lemma JuneDate(day: Day)
    ensures FormatDate(Date(2012, 6, day)) == Decimal.TwoDigits(day) + " Jun 2012"
  {
    YearText();
    assert MonthAbbrev(6) == "Jun";
  }

  lemma DateTexts()
    ensures FormatDate(Date(2012, 6, 29)) == "29 Jun 2012"
    ensures FormatDate(Date(2012, 6, 26)) == "26 Jun 2012"
  {
    JuneDate(29);
    DayDigits();
    JuneDate(26);
    JuneTexts();
  }

  lemma DayDigits()
    ensures Decimal.TwoDigits(29) == "29" && Decimal.TwoDigits(26) == "26"
  {
  }

  lemma JuneTexts()
    ensures "29" + " Jun 2012" == "29 Jun 2012" && "26" + " Jun 2012" == "26 Jun 2012"
  {
  }

  lemma ExampleAmounts()
    ensures Decimal.FormatCents(9700) == "97.00"
    ensures Decimal.FormatCents(-6530) == "-65.30"
  {
    UnsignedExamples();
    assert "-" + "65.30" == "-65.30";
  }

  lemma UnsignedExamples()
    ensures Decimal.UnsignedCents(9700) == "97.00"
    ensures Decimal.UnsignedCents(6530) == "65.30"
  {
    assert Decimal.NatToString(97) == "97" by {
      assert Decimal.NatToString(9) == "9";
    }
    assert Decimal.TwoDigits(0) == "00";
    assert "97" + "." + "00" == "97.00";
    UnsignedDebit();
  }

  lemma UnsignedDebit()
    ensures Decimal.UnsignedCents(6530) == "65.30"
  {
    assert Decimal.NatToString(65) == "65" by {
      assert Decimal.NatToString(6) == "6";
    }
    assert Decimal.TwoDigits(30) == "30";
    assert "65" + "." + "30" == "65.30";
  }

  /** A field of lower-case letters, digits and spaces is written as it is. */
  lemma PlainField(f: string)
    requires f != [] && forall i :: 0 <= i < |f| ==> 'a' <= f[i] <= 'z' || '0' <= f[i] <= '9' || f[i] == ' '
    ensures QuoteField(f) == f
  {
  }

  lemma ExampleFields()
    ensures QuoteField("the category") == "the category"
    ensures QuoteField("desc 1") == "desc 1"
    ensures QuoteField("desc 2") == "desc 2"
  {
    PlainField("the category");
    PlainField("desc 1");
    PlainField("desc 2");
  }

  lemma RowText(r: Record, d: string, a: string)
    requires r.date.Some? && r.amount.Some?
    requires FormatDate(r.date.value) == d
    requires Decimal.FormatCents(SignedAmount(r.isDebit == Some(true), r.amount.value)) == a
    ensures CsvRow(r) == Some(d + "," + QuoteField(CategoryOf(r).name) + "," + QuoteField(r.description) + "," + a)
  {
  }

  lemma LineTexts()
    ensures "29 Jun 2012" + "," + "the category" + "," + "desc 1" + "," + "97.00" == "29 Jun 2012,the category,desc 1,97.00"
    ensures "26 Jun 2012" + "," + "the category" + "," + "desc 2" + "," + "-65.30" == "26 Jun 2012,the category,desc 2,-65.30"
  {
  }

  /** The line of the income transaction. */
  lemma IncomeRow()
    ensures CsvRow(Income()) == Some("29 Jun 2012,the category,desc 1,97.00")
  {
    var r := Income();
    assert r.description == "desc 1" && CategoryOf(r).name == "the category";
    assert r.date == Some(Date(2012, 6, 29)) && r.amount == Some(9700) && r.isDebit == Some(false);
    DateTexts();
    ExampleAmounts();
    ExampleFields();
    RowText(r, "29 Jun 2012", "97.00");
    assert CsvRow(r) == Some("29 Jun 2012" + "," + "the category" + "," + "desc 1" + "," + "97.00");
    LineTexts();
  }

  /** The line of the debit transaction. */
  lemma DebitRow()
    ensures CsvRow(Debit()) == Some("26 Jun 2012,the category,desc 2,-65.30")
  {
    var r := Debit();
    assert r.description == "desc 2" && CategoryOf(r).name == "the category";
    assert r.date == Some(Date(2012, 6, 26)) && r.amount == Some(6530) && r.isDebit == Some(true);
    DateTexts();
    ExampleAmounts();
    ExampleFields();
    RowText(r, "26 Jun 2012", "-65.30");
    assert CsvRow(r) == Some("26 Jun 2012" + "," + "the category" + "," + "desc 2" + "," + "-65.30");
    LineTexts();
  }

  lemma OneRow(ts: seq<Option<Record>>, b: Record, lb: string, line: Record -> Option<string>)
    requires ts == [Some(b)] || ts == [Some(b), None]
    requires line(b) == Some(lb)
    ensures MapLines(ts, line) == Some([lb])
  {
    assert ts[0] == Some(b);
    if |ts| == 2 {
      assert ts[1..][0] == None && ts[1..][1..] == [];
      assert MapLines(ts[1..][1..], line) == Some([]);
    } else {
      assert ts[1..] == [];
    }
    assert MapLines(ts[1..], line) == Some([]);
    assert [lb] + [] == [lb];
  }

  lemma TwoLines(ts: seq<Option<Record>>, a: Record, b: Record, la: string, lb: string, line: Record -> Option<string>)
    requires ts == [Some(a), Some(b)] || ts == [Some(a), Some(b), None]
    requires line(a) == Some(la) && line(b) == Some(lb)
    ensures MapLines(ts, line) == Some([la, lb])
  {
    assert ts[0] == Some(a);
    OneRow(ts[1..], b, lb, line);
    assert [la] + [lb] == [la, lb];
  }

  lemma TwoRows(ts: seq<Option<Record>>, a: Record, b: Record, la: string, lb: string)
    requires ts == [Some(a), Some(b)] || ts == [Some(a), Some(b), None]
    requires CsvRow(a) == Some(la) && CsvRow(b) == Some(lb)
    ensures CsvLines(ts) == Some([Header, la, lb])
  {
    TwoLines(ts, a, b, la, lb, CsvRow);
    assert RowLines(ts) == Some([la, lb]);
    assert [Header] + [la, lb] == [Header, la, lb];
  }

  lemma SplitThree(la: string, lb: string)
    requires '\n' !in la && '\n' !in lb
    ensures SplitLines(JoinLines([Header, la, lb])) == [Header, la, lb]
  {
    var lines := [Header, la, lb];
    assert '\n' !in Header;
    assert forall i :: 0 <= i < |lines| ==> '\n' !in lines[i];
    SplitJoinLines(lines);
  }

  lemma ExportOfTwo(ts: seq<Option<Record>>, a: Record, b: Record, la: string, lb: string)
    requires ts == [Some(a), Some(b)] || ts == [Some(a), Some(b), None]
    requires CsvRow(a) == Some(la) && CsvRow(b) == Some(lb)
    requires '\n' !in a.description && '\n' !in CategoryOf(a).name
    requires '\n' !in b.description && '\n' !in CategoryOf(b).name
    ensures ToCsv(ts).Some? && SplitLines(ToCsv(ts).value) == [Header, la, lb]
  {
    TwoRows(ts, a, b, la, lb);
    NoNewlineInRow(a);
    NoNewlineInRow(b);
    SplitThree(la, lb);
  }

  lemma ExampleHaveNoBreaks()
    ensures '\n' !in Income().description && '\n' !in CategoryOf(Income()).name
    ensures '\n' !in Debit().description && '\n' !in CategoryOf(Debit()).name
  {
    assert Income().description == "desc 1" && Debit().description == "desc 2";
    assert CategoryOf(Income()).name == "the category" && CategoryOf(Debit()).name == "the category";
    assert '\n' !in "desc 1" && '\n' !in "desc 2" && '\n' !in "the category";
  }

  /** The export of an income and a debit, with or without a nil among them. */
  lemma ExportIncomeAndDebit(ts: seq<Option<Record>>)
    requires ts == [Some(Income()), Some(Debit())] || ts == [Some(Income()), Some(Debit()), None]
    ensures ToCsv(ts).Some?
    ensures SplitLines(ToCsv(ts).value) ==
      ["Date,Category,Description,Amount", "29 Jun 2012,the category,desc 1,97.00", "26 Jun 2012,the category,desc 2,-65.30"]
  {
    IncomeRow();
    DebitRow();
    ExampleHaveNoBreaks();
    ExportOfTwo(ts, Income(), Debit(), "29 Jun 2012,the category,desc 1,97.00", "26 Jun 2012,the category,desc 2,-65.30");
  }
}
