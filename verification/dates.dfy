/** Calendar dates: validity, order, the `FORMAT(date, ...)` renderings the queries use, and the
    reading of an ISO `yyyy-MM-dd` literal as SQL Server converts it to a DATE. */
module Dates {
  import opened Wrappers
  import opened Decimal
  import opened Records

  predicate IsLeap(y: nat) {
    (y % 4 == 0 && y % 100 != 0) || y % 400 == 0
  }

  function DaysInMonth(y: nat, m: nat): (n: nat)
    ensures 28 <= n <= 31
  {
    if m == 2 then (if IsLeap(y) then 29 else 28)
    else if m == 4 || m == 6 || m == 9 || m == 11 then 30
    else 31
  }

  /** A value SQL Server's DATE type can hold (years 0001 to 9999, Gregorian calendar). */
  predicate ValidDate(d: Date) {
    1 <= d.year <= 9999 && 1 <= d.month <= 12 && 1 <= d.day <= DaysInMonth(d.year, d.month)
  }

  /** Chronological order: year, then month, then day. */
  predicate DateLe(a: Date, b: Date) {
    a.year < b.year
    || (a.year == b.year && a.month < b.month)
    || (a.year == b.year && a.month == b.month && a.day <= b.day)
  }

  /** `FORMAT(d, 'yyyy-MM-dd')`. */
  function DateText(d: Date): string {
    Padded(d.year, 4) + "-" + Padded(d.month, 2) + "-" + Padded(d.day, 2)
  }

  /** `FORMAT(d, 'yyyyMM')`. */
  function PeriodText(d: Date): string {
    Padded(d.year, 4) + Padded(d.month, 2)
  }

  /** `FORMAT(d, 'yyyy-MM')`. */
  function MonthText(d: Date): string {
    Padded(d.year, 4) + "-" + Padded(d.month, 2)
  }

  /** The date an ISO literal `'yyyy-MM-dd'` denotes, or `None` when the conversion to DATE fails. */
  function ParseIsoDate(s: string): (r: Option<Date>)
    ensures r.Some? ==> ValidDate(r.value)
  {
    if |s| == 10 && s[4] == '-' && s[7] == '-'
       && AllDigits(s[..4]) && AllDigits(s[5..7]) && AllDigits(s[8..])
    then
      var d := Date(ParseDigits(s[..4]), ParseDigits(s[5..7]), ParseDigits(s[8..]));
      if ValidDate(d) then Some(d) else None
    else None
  }

  lemma Pow10Values()
    ensures Pow10(2) == 100 && Pow10(4) == 10000
  {
    assert Pow10(1) == 10;
    assert Pow10(3) == 1000;
  }

  /** Every valid date renders as a ten-character ISO text that reads back as the same date. */
  lemma ParseDateText(d: Date)
    requires ValidDate(d)
    ensures |DateText(d)| == 10
    ensures ParseIsoDate(DateText(d)) == Some(d)
  {
    Pow10Values();
    ParsePadded(d.year, 4);
    ParsePadded(d.month, 2);
    ParsePadded(d.day, 2);
    var y, m, dd := Padded(d.year, 4), Padded(d.month, 2), Padded(d.day, 2);
    assert |y| == 4 && |m| == 2 && |dd| == 2;
    var s := y + "-" + m + "-" + dd;
    assert s == DateText(d);
    SplitIso(s, y, m, dd);
  }

  /** The three fields of an ISO text joined by dashes are where `ParseIsoDate` reads them. */
  lemma SplitIso(s: string, y: string, m: string, dd: string)
    requires |y| == 4 && |m| == 2 && |dd| == 2
    requires s == y + "-" + m + "-" + dd
    ensures |s| == 10 && s[4] == '-' && s[7] == '-'
    ensures s[..4] == y && s[5..7] == m && s[8..] == dd
  {
  }

  /** Conversely, an ISO literal that converts to a date is exactly that date's rendering. */
  lemma DateTextOfParse(s: string)
    requires ParseIsoDate(s).Some?
    ensures DateText(ParseIsoDate(s).value) == s
  {
    var y, m, dd := s[..4], s[5..7], s[8..];
    CanonicalPadding(y);
    CanonicalPadding(m);
    CanonicalPadding(dd);
    var d := ParseIsoDate(s).value;
    assert d == Date(ParseDigits(y), ParseDigits(m), ParseDigits(dd));
    JoinIso(s);
  }

  lemma JoinIso(s: string)
    requires |s| == 10 && s[4] == '-' && s[7] == '-'
    ensures s == s[..4] + "-" + s[5..7] + "-" + s[8..]
  {
  }

  lemma SplitMonth(t: string, y: string, m: string)
    requires |y| == 4 && |m| == 2
    requires t == y + "-" + m
    ensures t[..4] == y && t[5..] == m
  {
  }

  /** A digit string is the zero-padded rendering, at its own width, of the value it reads as. */
  lemma {:induction false} CanonicalPadding(x: string)
    requires AllDigits(x) && |x| >= 1
    ensures Padded(ParseDigits(x), |x|) == x
  {
    var x', c := x[..|x| - 1], x[|x| - 1];
    var p, d := ParseDigits(x'), DigitValue(c);
    var n := ParseDigits(x);
    assert n == p * 10 + d;
    assert DigitChar(d) == c;
    assert x == x' + [c];
    if p == 0 {
      assert Digits(n) == [c];
      ZeroDigitsAreZeros(x');
      var r := Padded(n, |x|);
      assert |r| == |x|;
      forall i | 0 <= i < |x| ensures r[i] == x[i] {
        if i < |x| - 1 { assert r[i] == '0'; }
      }
    } else {
      assert n / 10 == p && n % 10 == d;
      assert Digits(n) == Digits(p) + [c];
      CanonicalPadding(x');
      PadStartSnoc(Digits(p), |x'|, c);
    }
  }

  lemma {:induction false} ZeroDigitsAreZeros(x: string)
    requires AllDigits(x) && ParseDigits(x) == 0
    ensures forall i :: 0 <= i < |x| ==> x[i] == '0'
  {
    if |x| > 0 {
      ZeroDigitsAreZeros(x[..|x| - 1]);
      assert forall i :: 0 <= i < |x| - 1 ==> x[i] == x[..|x| - 1][i];
    }
  }

  /** Padding commutes with appending one character at the right end. */
  lemma PadStartSnoc(s: string, width: nat, c: char)
    ensures PadStart(s + [c], width + 1, '0') == PadStart(s, width, '0') + [c]
  {
    var a, b := PadStart(s + [c], width + 1, '0'), PadStart(s, width, '0') + [c];
    assert |a| == |b|;
    forall i | 0 <= i < |a| ensures a[i] == b[i] {
      if i >= |a| - |s + [c]| {
        assert a[i] == (s + [c])[i - (|a| - |s + [c]|)];
        if i == |a| - 1 {
        } else {
          assert b[i] == PadStart(s, width, '0')[i];
        }
      }
    }
  }

  /** Two valid dates that render to the same `yyyyMM` text fall in the same month. */
  lemma PeriodTextInjective(a: Date, b: Date)
    requires ValidDate(a) && ValidDate(b)
    ensures PeriodText(a) == PeriodText(b) <==> a.year == b.year && a.month == b.month
  {
    var ya, ma := MonthFields(a);
    var yb, mb := MonthFields(b);
    if PeriodText(a) == PeriodText(b) {
      SplitPeriod(PeriodText(a), ya, ma);
      SplitPeriod(PeriodText(b), yb, mb);
    }
  }

  /** The year and month fields of a valid date, at their fixed widths, and what they read back as. */
  lemma MonthFields(d: Date) returns (y: string, m: string)
    requires ValidDate(d)
    ensures y == Padded(d.year, 4) && |y| == 4 && ParseDigits(y) == d.year
    ensures m == Padded(d.month, 2) && |m| == 2 && ParseDigits(m) == d.month
  {
    Pow10Values();
    ParsePadded(d.year, 4);
    ParsePadded(d.month, 2);
    y, m := Padded(d.year, 4), Padded(d.month, 2);
  }

  lemma SplitPeriod(t: string, y: string, m: string)
    requires |y| == 4 && |m| == 2
    requires t == y + m
    ensures t[..4] == y && t[4..] == m
  {
  }

  /** Two valid dates that render to the same `yyyy-MM` text fall in the same month. */
  lemma MonthTextInjective(a: Date, b: Date)
    requires ValidDate(a) && ValidDate(b)
    ensures MonthText(a) == MonthText(b) <==> a.year == b.year && a.month == b.month
  {
    var ya, ma := MonthFields(a);
    var yb, mb := MonthFields(b);
    if MonthText(a) == MonthText(b) {
      SplitMonth(MonthText(a), ya, ma);
      SplitMonth(MonthText(b), yb, mb);
    }
  }
}
