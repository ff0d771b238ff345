/**
 * Calendar vocabulary shared by the report labels and the transaction dates:
 * month numbers, their English names and three-letter abbreviations, the
 * Gregorian month lengths, and the "DD Mon YYYY" date text (`strftime("%d %b %Y")`)
 * with the cast that reads it back.
 */
module Calendar {
  import opened Wrappers
  import opened Decimal

  type Month = m: int | 1 <= m <= 12 witness 1
  type Day = d: int | 1 <= d <= 31 witness 1

  datatype Date = Date(year: nat, month: Month, day: Day)

  /** Ruby's `Date::MONTHNAMES[m]`. */
  function MonthName(m: Month): string
  {
    if m == 1 then "January" else if m == 2 then "February" else if m == 3 then "March"
    else if m == 4 then "April" else if m == 5 then "May" else if m == 6 then "June"
    else if m == 7 then "July" else if m == 8 then "August" else if m == 9 then "September"
    else if m == 10 then "October" else if m == 11 then "November" else "December"
  }

  /** The abbreviation `%b` writes: the first three letters of the month's name. */
  function MonthAbbrev(m: Month): (s: string)
    ensures |s| == 3 && |MonthName(m)| >= 3 && s == MonthName(m)[..3]
  {
    if m == 1 then "Jan" else if m == 2 then "Feb" else if m == 3 then "Mar"
    else if m == 4 then "Apr" else if m == 5 then "May" else if m == 6 then "Jun"
    else if m == 7 then "Jul" else if m == 8 then "Aug" else if m == 9 then "Sep"
    else if m == 10 then "Oct" else if m == 11 then "Nov" else "Dec"
  }

  /** The month an abbreviation names, if any. */
  function MonthFromAbbrev(s: string): (r: Option<Month>)
    ensures r.Some? ==> MonthAbbrev(r.value) == s
    ensures r.None? ==> forall m: Month :: MonthAbbrev(m) != s
  {
    if s == "Jan" then Some(1) else if s == "Feb" then Some(2) else if s == "Mar" then Some(3)
    else if s == "Apr" then Some(4) else if s == "May" then Some(5) else if s == "Jun" then Some(6)
    else if s == "Jul" then Some(7) else if s == "Aug" then Some(8) else if s == "Sep" then Some(9)
    else if s == "Oct" then Some(10) else if s == "Nov" then Some(11) else if s == "Dec" then Some(12)
    else None
  }

  /** Distinct months have distinct abbreviations. */
  lemma MonthAbbrevInjective(m: Month, n: Month)
    requires MonthAbbrev(m) == MonthAbbrev(n)
    ensures m == n
  {
    var r := MonthFromAbbrev(MonthAbbrev(m));
    assert r == Some(m) && r == Some(n);
  }

  predicate IsLeapYear(y: nat) { y % 4 == 0 && (y % 100 != 0 || y % 400 == 0) }

  function DaysInMonth(y: nat, m: Month): (n: Day)
    ensures 28 <= n <= 31
  {
    if m == 2 then (if IsLeapYear(y) then 29 else 28)
    else if m == 4 || m == 6 || m == 9 || m == 11 then 30
    else 31
  }

  /** A date that exists in the Gregorian calendar. */
  predicate IsCalendarDate(d: Date) { d.day <= DaysInMonth(d.year, d.month) }

  /** `strftime("%d %b %Y")`: two-digit day, month abbreviation, year of at least four digits. */
  function FormatDate(d: Date): (s: string)
    ensures |s| >= 11 && IsDigit(s[0]) && IsDigit(s[1]) && s[2] == ' ' && s[3..6] == MonthAbbrev(d.month) && s[6] == ' '
  {
    var dayText, yearText := TwoDigits(d.day), ZeroPad(NatToString(d.year), 4);
    var s := dayText + " " + MonthAbbrev(d.month) + " " + yearText;
    assert s[3..6] == MonthAbbrev(d.month);
    s
  }

  /**
   * The date cast of a "D Mon YYYY" or "DD Mon YYYY" text; any other text,
   * blank text included, and any day the month does not have give no date.
   */
  function ParseDate(s: string): (r: Option<Date>)
    ensures r.Some? ==> IsCalendarDate(r.value)
  {
    var i := IndexOf(s, ' ');
    var dayText := s[..i];
    if !(1 <= |dayText| <= 2 && AllDigits(dayText)) || |s| != i + 9 then None
    else
      var rest := s[i + 1..];
      if rest[3] != ' ' || !AllDigits(rest[4..]) then None
      else
        match MonthFromAbbrev(rest[..3])
        case None => None
        case Some(m) =>
          var y := DigitsValue(rest[4..]);
          var d := DigitsValue(dayText);
          if 1 <= d <= DaysInMonth(y, m) then Some(Date(y, m, d)) else None
  }

  /** Every calendar date of a four-digit year reads back from its own text. */
  lemma ParseFormatDate(d: Date)
    requires IsCalendarDate(d) && d.year <= 9999
    ensures ParseDate(FormatDate(d)) == Some(d)
  {
    var dayText, abbrev := TwoDigits(d.day), MonthAbbrev(d.month);
    var yearDigits := NatToString(d.year);
    ShortYear(d.year);
    var yearText := ZeroPad(yearDigits, 4);
    DigitsValueZeroPad(yearDigits, 4);
    var s := FormatDate(d);
    assert s == dayText + " " + abbrev + " " + yearText;
    assert s[2] == ' ' && IsDigit(s[0]) && IsDigit(s[1]);
    assert IndexOf(s, ' ') == 2;
    assert s[..2] == dayText;
    var rest := s[3..];
    assert rest == abbrev + " " + yearText;
    assert rest[..3] == abbrev && rest[4..] == yearText;
    assert MonthFromAbbrev(abbrev) == Some(d.month) by {
      var r := MonthFromAbbrev(abbrev);
      if r.Some? { MonthAbbrevInjective(r.value, d.month); }
    }
  }

  lemma ShortYear(y: nat)
    requires y <= 9999
    ensures |NatToString(y)| <= 4
  {
    var a := y / 10;
    var b := a / 10;
    var c := b / 10;
    assert a <= 999 && b <= 99 && c <= 9;
    assert |NatToString(b)| <= 2 by {
      if b >= 10 { assert |NatToString(b)| == |NatToString(c)| + 1; }
    }
    assert |NatToString(a)| <= 3 by {
      if a >= 10 { assert |NatToString(a)| == |NatToString(b)| + 1; }
    }
    if y >= 10 { assert |NatToString(y)| == |NatToString(a)| + 1; }
  }

  /** Leading zeros do not change the value of a digit string. */
  lemma DigitsValueZeroPad(s: string, width: nat)
    requires AllDigits(s)
    ensures AllDigits(ZeroPad(s, width)) && DigitsValue(ZeroPad(s, width)) == DigitsValue(s)
  {
    var r := ZeroPad(s, width);
    var z := r[..|r| - |s|];
    assert r == z + s;
    assert AllDigits(r) by {
      forall i | 0 <= i < |r| ensures IsDigit(r[i]) {
        if i >= |r| - |s| { assert r[i] == s[i - (|r| - |s|)]; }
      }
    }
    ZerosThenDigits(z, s);
  }

  lemma {:induction false} ZerosThenDigits(z: string, s: string)
    requires forall i :: 0 <= i < |z| ==> z[i] == '0'
    requires AllDigits(s)
    ensures AllDigits(z + s) && DigitsValue(z + s) == DigitsValue(s)
    decreases |s|
  {
    var r := z + s;
    assert AllDigits(r) by {
      forall i | 0 <= i < |r| ensures IsDigit(r[i]) {
        if i < |z| { assert r[i] == z[i]; } else { assert r[i] == s[i - |z|]; }
      }
    }
    if s == [] {
      assert r == z;
      AllZeros(z);
    } else {
      var s' := s[..|s| - 1];
      assert r[..|r| - 1] == z + s';
      ZerosThenDigits(z, s');
    }
  }

  lemma {:induction false} AllZeros(z: string)
    requires forall i :: 0 <= i < |z| ==> z[i] == '0'
    ensures AllDigits(z) && DigitsValue(z) == 0
    decreases |z|
  {
    if z != [] { AllZeros(z[..|z| - 1]); }
  }
}
