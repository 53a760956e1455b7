/** Proleptic Gregorian dates, their day ordinals (0001-01-01 is day 1, as
    Python's `date.toordinal`), and the `YYYY-MM-DD` form that the
    calculator reads with `strptime(..., "%Y-%m-%d")`. */
module Dates {
  import opened Wrappers
  import opened Lexical

  datatype Date = Date(year: int, month: int, day: int)

  predicate IsLeap(y: int) {
    y % 4 == 0 && (y % 100 != 0 || y % 400 == 0)
  }

  function DaysInMonth(y: int, m: int): (n: int)
    requires 1 <= m <= 12
    ensures 28 <= n <= 31
  {
    if m == 2 then (if IsLeap(y) then 29 else 28)
    else if m == 4 || m == 6 || m == 9 || m == 11 then 30
    else 31
  }

  function DaysInYear(y: int): int {
    if IsLeap(y) then 366 else 365
  }

  /** The range of Python's `date` type: years 1 to 9999. */
  predicate ValidDate(d: Date) {
    1 <= d.year <= 9999 && 1 <= d.month <= 12 && 1 <= d.day <= DaysInMonth(d.year, d.month)
  }

  /** Days in the years before `y`, the closed form Python's datetime uses. */
  function DaysBeforeYear(y: int): int
    requires y >= 1
  {
    var p := y - 1;
    p * 365 + p / 4 - p / 100 + p / 400
  }

  /** Days in the months of year `y` before month `m`. */
  function DaysBeforeMonth(y: int, m: int): int
    requires 1 <= m <= 12
  {
    (if m > 2 && IsLeap(y) then 1 else 0) +
    (if m == 1 then 0 else if m == 2 then 31 else if m == 3 then 59
     else if m == 4 then 90 else if m == 5 then 120 else if m == 6 then 151
     else if m == 7 then 181 else if m == 8 then 212 else if m == 9 then 243
     else if m == 10 then 273 else if m == 11 then 304 else 334)
  }

  function Ordinal(d: Date): int
    requires ValidDate(d)
  {
    DaysBeforeYear(d.year) + DaysBeforeMonth(d.year, d.month) + d.day
  }

  /** (y1, m1, d1) comes strictly before (y2, m2, d2) on the calendar. */
  predicate Before(a: Date, b: Date) {
    a.year < b.year || (a.year == b.year && (a.month < b.month || (a.month == b.month && a.day < b.day)))
  }

  lemma DaysBeforeYearStep(y: int)
    requires y >= 1
    ensures DaysBeforeYear(y + 1) == DaysBeforeYear(y) + DaysInYear(y)
  {
    var p := y - 1;
    assert y / 4 - p / 4 == (if y % 4 == 0 then 1 else 0);
    assert y / 100 - p / 100 == (if y % 100 == 0 then 1 else 0);
    assert y / 400 - p / 400 == (if y % 400 == 0 then 1 else 0);
  }

  lemma {:induction false} DaysBeforeYearGrows(y1: int, y2: int)
    requires 1 <= y1 < y2
    ensures DaysBeforeYear(y1) + DaysInYear(y1) <= DaysBeforeYear(y2)
    decreases y2 - y1
  {
    DaysBeforeYearStep(y1);
    if y1 + 1 < y2 {
      DaysBeforeYearGrows(y1 + 1, y2);
    }
  }

  lemma DaysBeforeMonthGrows(y: int, m1: int, m2: int)
    requires 1 <= m1 < m2 <= 12
    ensures DaysBeforeMonth(y, m1) + DaysInMonth(y, m1) <= DaysBeforeMonth(y, m2)
  {
  }

  lemma DaysBeforeMonthBound(y: int, m: int)
    requires 1 <= m <= 12
    ensures DaysBeforeMonth(y, m) + DaysInMonth(y, m) <= DaysInYear(y)
  {
  }

  /** The ordinal is strictly increasing along the calendar, so comparing
      ordinals is comparing dates. */
  lemma OrdinalIncreasing(a: Date, b: Date)
    requires ValidDate(a) && ValidDate(b)
    requires Before(a, b)
    ensures Ordinal(a) < Ordinal(b)
  {
    if a.year < b.year {
      DaysBeforeMonthBound(a.year, a.month);
      DaysBeforeYearGrows(a.year, b.year);
    } else if a.month < b.month {
      DaysBeforeMonthGrows(a.year, a.month, b.month);
    }
  }

  /** Two valid dates with one ordinal are the same date. */
  lemma OrdinalInjective(a: Date, b: Date)
    requires ValidDate(a) && ValidDate(b)
    ensures Ordinal(a) == Ordinal(b) <==> a == b
  {
    if Before(a, b) {
      OrdinalIncreasing(a, b);
    } else if Before(b, a) {
      OrdinalIncreasing(b, a);
    }
  }

  // ---------------------------------------------------------------------
  // The YYYY-MM-DD text form

  predicate IsDigit(c: char) {
    '0' <= c <= '9'
  }

  function DigitValue(c: char): (v: int)
    requires IsDigit(c)
    ensures 0 <= v <= 9
  {
    c as int - '0' as int
  }

  /** Ten characters: four digits, a dash, two digits, a dash, two digits. */
  predicate Canonical(s: string) {
    && |s| == 10
    && s[4] == '-' && s[7] == '-'
    && IsDigit(s[0]) && IsDigit(s[1]) && IsDigit(s[2]) && IsDigit(s[3])
    && IsDigit(s[5]) && IsDigit(s[6]) && IsDigit(s[8]) && IsDigit(s[9])
  }

  function Fields(s: string): (d: Date)
    requires Canonical(s)
    ensures 0 <= d.year <= 9999 && 0 <= d.month <= 99 && 0 <= d.day <= 99
  {
    Date(1000 * DigitValue(s[0]) + 100 * DigitValue(s[1]) + 10 * DigitValue(s[2]) + DigitValue(s[3]),
         10 * DigitValue(s[5]) + DigitValue(s[6]),
         10 * DigitValue(s[8]) + DigitValue(s[9]))
  }

  /** `strptime(s, "%Y-%m-%d")` on zero-padded text: None where Python raises
      ValueError (wrong shape, month or day out of range, year 0). */
  function ParseDate(s: string): (r: Option<Date>)
    ensures r.Some? ==> Canonical(s) && ValidDate(r.value)
    ensures r.Some? ==> r.value == Fields(s)
  {
    if Canonical(s) && ValidDate(Fields(s)) then
      Some(Fields(s))
    else None
  }

  function DigitChar(v: int): (c: char)
    requires 0 <= v <= 9
    ensures IsDigit(c) && DigitValue(c) == v
  {
    ('0' as int + v) as char
  }

  /** Zero-padded decimal text of a number below 100 (the `%d`/`%m` form). */
  function Digits2(n: int): (s: string)
    requires 0 <= n <= 99
    ensures |s| == 2 && IsDigit(s[0]) && IsDigit(s[1])
    ensures 10 * DigitValue(s[0]) + DigitValue(s[1]) == n
  {
    [DigitChar(n / 10), DigitChar(n % 10)]
  }

  lemma Digits2Inverse(c0: char, c1: char)
    requires IsDigit(c0) && IsDigit(c1)
    ensures Digits2(10 * DigitValue(c0) + DigitValue(c1)) == [c0, c1]
  {
  }

  /** Zero-padded decimal text of a year (the `%Y` form). */
  function Digits4(n: int): (s: string)
    requires 0 <= n <= 9999
    ensures |s| == 4 && IsDigit(s[0]) && IsDigit(s[1]) && IsDigit(s[2]) && IsDigit(s[3])
    ensures 1000 * DigitValue(s[0]) + 100 * DigitValue(s[1]) + 10 * DigitValue(s[2]) + DigitValue(s[3]) == n
  {
    var hi, lo := n / 100, n % 100;
    Digits2(hi) + Digits2(lo)
  }

  /** The canonical text of a valid date. */
  function Format(d: Date): (s: string)
    requires ValidDate(d)
  {
    Digits4(d.year) + "-" + Digits2(d.month) + "-" + Digits2(d.day)
  }

  /** Parsing and printing the canonical form are inverse to each other. */
  lemma FormatParseRoundTrip(d: Date)
    requires ValidDate(d)
    ensures ParseDate(Format(d)) == Some(d)
  {
    var s := Format(d);
    assert s[0..4] == Digits4(d.year) && s[5..7] == Digits2(d.month) && s[8..10] == Digits2(d.day);
    assert Fields(s) == d;
  }

  lemma ParseFormatRoundTrip(s: string)
    requires ParseDate(s).Some?
    ensures Format(ParseDate(s).value) == s
  {
    var d := ParseDate(s).value;
    assert d == Fields(s);
    Digits4Inverse(s[0], s[1], s[2], s[3]);
    assert Digits4(d.year) == [s[0], s[1], s[2], s[3]];
    Digits2Inverse(s[5], s[6]);
    assert Digits2(d.month) == [s[5], s[6]];
    Digits2Inverse(s[8], s[9]);
    assert Digits2(d.day) == [s[8], s[9]];
    assert s == [s[0], s[1], s[2], s[3]] + "-" + [s[5], s[6]] + "-" + [s[8], s[9]];
  }

  lemma Digits4Inverse(c0: char, c1: char, c2: char, c3: char)
    requires IsDigit(c0) && IsDigit(c1) && IsDigit(c2) && IsDigit(c3)
    ensures Digits4(1000 * DigitValue(c0) + 100 * DigitValue(c1) + 10 * DigitValue(c2) + DigitValue(c3)) == [c0, c1, c2, c3]
  {
    var hi, lo := 10 * DigitValue(c0) + DigitValue(c1), 10 * DigitValue(c2) + DigitValue(c3);
    var n := 100 * hi + lo;
    assert n / 100 == hi && n % 100 == lo;
    Digits2Inverse(c0, c1);
    Digits2Inverse(c2, c3);
  }

  /** Canonical text read as the eight-digit number YYYYMMDD. */
  function Key(s: string): int
    requires Canonical(s)
  {
    var d := Fields(s);
    d.year * 10000 + d.month * 100 + d.day
  }

  lemma KeyFollowsText(a: string, b: string)
    requires Canonical(a) && Canonical(b)
    requires LexLe(a, b) && a != b
    ensures Key(a) < Key(b)
  {
    var i := LexLeFirstDifference(a, b);
    assert i != 4 && i != 7;
    assert a[0] == b[0] || i == 0;
    assert i <= 1 || a[1] == b[1];
    assert i <= 2 || a[2] == b[2];
    assert i <= 3 || a[3] == b[3];
    assert i <= 5 || a[5] == b[5];
    assert i <= 6 || a[6] == b[6];
    assert i <= 8 || a[8] == b[8];
  }

  lemma KeyFollowsCalendar(a: Date, b: Date)
    requires 0 <= a.month <= 99 && 0 <= a.day <= 99 && 0 <= b.month <= 99 && 0 <= b.day <= 99
    requires a.year * 10000 + a.month * 100 + a.day < b.year * 10000 + b.month * 100 + b.day
    ensures Before(a, b)
  {
  }

  /** Sorting canonical date strings as Python strings is sorting them by
      date: the string order and the ordinal order agree. */
  lemma TextOrderIsChronological(a: string, b: string)
    requires ParseDate(a).Some? && ParseDate(b).Some?
    ensures LexLe(a, b) <==> Ordinal(ParseDate(a).value) <= Ordinal(ParseDate(b).value)
  {
    var da, db := ParseDate(a).value, ParseDate(b).value;
    if LexLe(a, b) {
      if a != b {
        KeyFollowsText(a, b);
        KeyFollowsCalendar(da, db);
        OrdinalIncreasing(da, db);
      }
    } else {
      LexLeTotal(a, b);
      LexLeReflexive(a);
      KeyFollowsText(b, a);
      KeyFollowsCalendar(db, da);
      OrdinalIncreasing(db, da);
    }
  }
}
