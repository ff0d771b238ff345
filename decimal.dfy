/**
 * Decimal numerals: the rendering of integers as digit strings (Ruby's
 * `Integer#to_s`), its inverse, and amounts in cents written with exactly
 * two decimals (`"%.2f"`) together with the decimal cast that reads them back.
 */
module Decimal {
  import opened Wrappers

  predicate IsDigit(c: char) { '0' <= c <= '9' }

  predicate AllDigits(s: string) { forall i :: 0 <= i < |s| ==> IsDigit(s[i]) }

  /** A digit string as `to_s` writes it: non-empty, no leading zero unless it is "0". */
  predicate Canonical(s: string) { |s| >= 1 && AllDigits(s) && (s[0] == '0' ==> |s| == 1) }

  function DigitValue(c: char): (d: nat)
    requires IsDigit(c)
    ensures d < 10
  {
    c as int - '0' as int
  }

  function DigitChar(d: nat): (c: char)
    requires d < 10
    ensures IsDigit(c) && DigitValue(c) == d
  {
    ('0' as int + d) as char
  }

  /** The value of a digit string, most significant digit first ("" reads as 0). */
  function DigitsValue(s: string): nat
    requires AllDigits(s)
    decreases |s|
  {
    if s == [] then 0 else 10 * DigitsValue(s[..|s| - 1]) + DigitValue(s[|s| - 1])
  }

  function NatToString(n: nat): (s: string)
    ensures Canonical(s)
    ensures DigitsValue(s) == n
    decreases n
  {
    if n < 10 then [DigitChar(n)]
    else
      var t := NatToString(n / 10);
      var s := t + [DigitChar(n % 10)];
      assert s[..|s| - 1] == t;
      s
  }

  /** A canonical digit string with a non-zero first digit reads as a positive number. */
  lemma {:induction false} LeadingDigitPositive(s: string)
    requires Canonical(s) && s[0] != '0'
    ensures DigitsValue(s) > 0
    decreases |s|
  {
    if |s| > 1 {
      var t := s[..|s| - 1];
      assert t[0] == s[0];
      LeadingDigitPositive(t);
    }
  }

  /** Writing back the value of a canonical digit string gives the same string. */
  lemma {:induction false} NatToStringOfDigits(s: string)
    requires Canonical(s)
    ensures NatToString(DigitsValue(s)) == s
    decreases |s|
  {
    if |s| > 1 {
      var t := s[..|s| - 1];
      assert t[0] == s[0];
      assert Canonical(t);
      LeadingDigitPositive(t);
      NatToStringOfDigits(t);
      var v, d := DigitsValue(t), DigitValue(s[|s| - 1]);
      assert DigitsValue(s) == 10 * v + d;
      assert (10 * v + d) / 10 == v && (10 * v + d) % 10 == d;
      assert s == t + [s[|s| - 1]];
    }
  }

  /** Ruby's `Integer#to_s`: an optional minus sign, then the canonical digits of the magnitude. */
  function IntToString(i: int): (s: string)
    ensures |s| >= 1 && (s[0] == '-' <==> i < 0)
    ensures Canonical(if i < 0 then s[1..] else s)
  {
    if i < 0 then
      var t := NatToString(-i);
      assert ("-" + t)[1..] == t;
      "-" + t
    else NatToString(i)
  }

  /** Reads an optionally signed digit string; anything else is not an integer. */
  function ParseInt(s: string): Option<int>
  {
    if |s| >= 2 && s[0] == '-' && AllDigits(s[1..]) then Some(-(DigitsValue(s[1..]) as int))
    else if |s| >= 1 && AllDigits(s) then Some(DigitsValue(s))
    else None
  }

  lemma ParseIntToString(i: int)
    ensures ParseInt(IntToString(i)) == Some(i)
  {
    var s := IntToString(i);
    if i < 0 {
      assert s[1..] == NatToString(-i);
    } else {
      assert IsDigit(s[0]);
    }
  }

  /** Two digits with a leading zero, as in `"%02d"`. */
  function TwoDigits(n: nat): (s: string)
    requires n < 100
    ensures |s| == 2 && AllDigits(s) && DigitsValue(s) == n
  {
    var s := [DigitChar(n / 10), DigitChar(n % 10)];
    assert s[..1] == [s[0]] && s[..1][..0] == [];
    assert DigitsValue(s[..1]) == n / 10;
    s
  }

  /** Left-pads a string with zeros up to `width` characters, as `"%0<width>d"` does. */
  function ZeroPad(s: string, width: nat): (r: string)
    ensures |r| == if |s| < width then width else |s|
    ensures r[|r| - |s|..] == s
    ensures forall i :: 0 <= i < |r| - |s| ==> r[i] == '0'
  {
    if |s| < width then seq(width - |s|, _ => '0') + s else s
  }

  /** Whole units, a point and two decimals: a non-negative amount in cents as `"%.2f"` writes it. */
  function UnsignedCents(m: nat): (u: string)
    ensures |u| >= 4 && Canonical(u[..|u| - 3]) && u[|u| - 3] == '.' && AllDigits(u[|u| - 2..])
  {
    var whole, frac := NatToString(m / 100), TwoDigits(m % 100);
    var u := whole + "." + frac;
    assert u[..|u| - 3] == whole;
    assert u[|u| - 2..] == frac;
    u
  }

  /** An amount in cents written with exactly two decimals and a minus sign when negative. */
  function FormatCents(c: int): (s: string)
    ensures var sign := if c < 0 then 1 else 0;
      |s| >= sign + 4 && (s[0] == '-' <==> c < 0)
      && Canonical(s[sign..|s| - 3]) && s[|s| - 3] == '.' && AllDigits(s[|s| - 2..])
  {
    if c < 0 then
      var u := UnsignedCents(-c);
      assert ("-" + u)[1..] == u;
      "-" + u
    else UnsignedCents(c)
  }

  /** The position of the first `x` in `s`, or `|s|` when there is none. */
  function IndexOf(s: string, x: char): (k: nat)
    ensures k <= |s|
    ensures k < |s| ==> s[k] == x
    ensures forall i :: 0 <= i < k ==> s[i] != x
  {
    if s == [] then 0 else if s[0] == x then 0 else 1 + IndexOf(s[1..], x)
  }

  /**
   * The decimal cast of an unsigned amount text into cents: digits, optionally
   * followed by a point and one or two decimals.
   */
  function ParseUnsignedCents(s: string): Option<nat>
  {
    var k := IndexOf(s, '.');
    var whole := s[..k];
    if whole == [] || !AllDigits(whole) then None
    else if k == |s| then Some(100 * DigitsValue(whole))
    else
      var frac := s[k + 1..];
      if |frac| == 1 && AllDigits(frac) then Some(100 * DigitsValue(whole) + 10 * DigitValue(frac[0]))
      else if |frac| == 2 && AllDigits(frac) then Some(100 * DigitsValue(whole) + DigitsValue(frac))
      else None
  }

  /** The decimal cast of an amount text into cents, with an optional leading minus sign. */
  function ParseCents(s: string): Option<int>
  {
    if |s| >= 1 && s[0] == '-' then
      match ParseUnsignedCents(s[1..])
      case Some(v) => Some(-(v as int))
      case None => None
    else
      match ParseUnsignedCents(s)
      case Some(v) => Some(v)
      case None => None
  }

  lemma IndexOfAfterDigits(t: string, rest: string)
    requires AllDigits(t) && |rest| >= 1 && rest[0] == '.'
    ensures IndexOf(t + rest, '.') == |t|
  {
    var s := t + rest;
    assert s[|t|] == '.';
    forall i | 0 <= i < |t| ensures s[i] != '.' { assert s[i] == t[i]; }
  }

  /** Written amounts read back as the same number of cents. */
  lemma ParseFormatCents(c: int)
    ensures ParseCents(FormatCents(c)) == Some(c)
  {
    var m := if c < 0 then -c else c;
    var whole, frac := NatToString(m / 100), TwoDigits(m % 100);
    var u := UnsignedCents(m);
    assert u == whole + ("." + frac);
    IndexOfAfterDigits(whole, "." + frac);
    assert IndexOf(u, '.') == |whole| < |u|;
    assert u[..|whole|] == whole;
    assert u[|whole| + 1..] == frac;
    assert AllDigits(whole) && whole != [];
    assert AllDigits(frac) && |frac| == 2;
    assert DigitsValue(whole) == m / 100 && DigitsValue(frac) == m % 100;
    assert ParseUnsignedCents(u) == Some(100 * (m / 100) + m % 100);
    if c < 0 {
      assert FormatCents(c)[1..] == u;
    } else {
      assert FormatCents(c) == u;
      assert IsDigit(u[0]);
    }
  }
}
