/** The text helpers the renderer applies to the statistics: `format_date`
    (the "Mon DD" label), the date-range line built from it, and the
    thousands grouping of the total. */
module Labels {
  import opened Wrappers
  import opened Dates

  /** `%b` in the C locale. */
  function MonthAbbrev(m: int): (r: string)
    requires 1 <= m <= 12
    ensures |r| == 3
  {
    if m == 1 then "Jan" else if m == 2 then "Feb" else if m == 3 then "Mar"
    else if m == 4 then "Apr" else if m == 5 then "May" else if m == 6 then "Jun"
    else if m == 7 then "Jul" else if m == 8 then "Aug" else if m == 9 then "Sep"
    else if m == 10 then "Oct" else if m == 11 then "Nov" else "Dec"
  }

  lemma MonthAbbrevInjective(m1: int, m2: int)
    requires 1 <= m1 <= 12 && 1 <= m2 <= 12
    ensures MonthAbbrev(m1) == MonthAbbrev(m2) <==> m1 == m2
  {
  }

  /** `format_date`: "" becomes "N/A", a date becomes its month abbreviation,
      a space and the zero-padded day, and any text `strptime` rejects comes
      back unchanged. */
  function FormatDate(s: string): (r: string)
    ensures s == "" ==> r == "N/A"
    ensures s != "" && ParseDate(s).None? ==> r == s
    ensures ParseDate(s).Some? ==>
              |r| == 6 && r[..3] == MonthAbbrev(ParseDate(s).value.month) && r[3] == ' ' && r[4..] == s[8..]
  {
    if s == "" then "N/A"
    else match ParseDate(s)
      case None => s
      case Some(d) =>
        Digits2Inverse(s[8], s[9]);
        assert s[8..] == [s[8], s[9]];
        MonthAbbrev(d.month) + " " + Digits2(d.day)
  }

  /** The label keeps the month and day of a date and drops only its year. */
  lemma LabelDropsOnlyYear(a: string, b: string)
    requires ParseDate(a).Some? && ParseDate(b).Some?
    ensures FormatDate(a) == FormatDate(b) <==> a[5..] == b[5..]
  {
    var da, db := ParseDate(a).value, ParseDate(b).value;
    var la, lb := FormatDate(a), FormatDate(b);
    if la == lb {
      assert la[..3] == lb[..3] && la[4..] == lb[4..];
      MonthAbbrevInjective(da.month, db.month);
      Digits2Inverse(a[5], a[6]);
      Digits2Inverse(b[5], b[6]);
      assert a[5..] == [a[5], a[6]] + "-" + a[8..];
      assert b[5..] == [b[5], b[6]] + "-" + b[8..];
    }
  }

  /** The card's date-range line: "<label> - Present", or "No active streak" when the label is
      "N/A". */
  function DateRange(start: string): (r: string)
    ensures r == "No active streak" <==> start == "" || start == "N/A"
    ensures r != "No active streak" ==> r == FormatDate(start) + " - Present"
  {
    var text := FormatDate(start);
    if text != "N/A" then
      PresentIsNotNoStreak(text);
      text + " - Present"
    else "No active streak"
  }

  /** No label followed by " - Present" reads "No active streak": at the
      only length where they could match, the dash sits where the other has
      a letter. */
  lemma PresentIsNotNoStreak(text: string)
    ensures text + " - Present" != "No active streak"
  {
    if |text| == 6 {
      assert (text + " - Present")[7] == '-';
    }
  }

  /** The caption of a streak start that is a valid date shows its month and
      day: two such captions agree exactly when the dates differ at most in
      the year. */
  lemma CaptionShowsMonthAndDay(a: string, b: string)
    requires ParseDate(a).Some? && ParseDate(b).Some?
    ensures DateRange(a) == DateRange(b) <==> a[5..] == b[5..]
  {
    LabelDropsOnlyYear(a, b);
  }

  // ---------------------------------------------------------------------
  // `f"{n:,}"` for an integer total

  function DecimalDigits(n: nat): (r: string)
    ensures |r| >= 1 && forall i :: 0 <= i < |r| ==> IsDigit(r[i])
    decreases n
  {
    if n < 10 then [DigitChar(n)] else DecimalDigits(n / 10) + [DigitChar(n % 10)]
  }

  function DecimalValue(s: string): nat
    requires forall i :: 0 <= i < |s| ==> IsDigit(s[i])
    decreases |s|
  {
    if |s| == 0 then 0 else 10 * DecimalValue(s[..|s| - 1]) + DigitValue(s[|s| - 1]) as nat
  }

  lemma {:induction false} DecimalRoundTrip(n: nat)
    ensures DecimalValue(DecimalDigits(n)) == n
    decreases n
  {
    if n >= 10 {
      DecimalRoundTrip(n / 10);
      var s := DecimalDigits(n);
      assert s[..|s| - 1] == DecimalDigits(n / 10);
    }
  }

  /** Inserts a comma before every third digit counted from the right. */
  function Group(ds: string): (r: string)
    requires |ds| >= 1 && forall i :: 0 <= i < |ds| ==> IsDigit(ds[i])
    ensures |r| >= |ds| && r[0] == ds[0]
    decreases |ds|
  {
    if |ds| <= 3 then ds else Group(ds[..|ds| - 3]) + "," + ds[|ds| - 3..]
  }

  /** Grouping puts a comma at every fourth position counted from the right
      and keeps a digit everywhere else. */
  lemma {:induction false} GroupShape(ds: string)
    requires |ds| >= 1 && forall i :: 0 <= i < |ds| ==> IsDigit(ds[i])
    ensures forall i :: 0 <= i < |Group(ds)| ==> Group(ds)[i] == ',' || IsDigit(Group(ds)[i])
    ensures forall i :: 0 <= i < |Group(ds)| ==> (Group(ds)[i] == ',' <==> (|Group(ds)| - i) % 4 == 0)
    decreases |ds|
  {
    var r := Group(ds);
    if |ds| <= 3 {
      forall i | 0 <= i < |ds| ensures ds[i] == ',' <==> (|ds| - i) % 4 == 0 {
        assert IsDigit(ds[i]);
        SmallNotMultipleOfFour(|ds| - i);
      }
    } else {
      var init := ds[..|ds| - 3];
      var head := Group(init);
      var tail := ds[|ds| - 3..];
      GroupShape(init);
      assert r == head + "," + tail;
      forall i | 0 <= i < |r| ensures r[i] == ',' || IsDigit(r[i]) {
        if i < |head| {
          assert r[i] == head[i];
        } else if i == |head| {
          assert r[i] == ',';
        } else {
          assert r[i] == tail[i - |head| - 1] == ds[|ds| - 3 + (i - |head| - 1)];
        }
      }
      forall i | 0 <= i < |r| ensures r[i] == ',' <==> (|r| - i) % 4 == 0 {
        if i < |head| {
          assert r[i] == head[i];
          ShiftByFour(|head| - i);
        } else if i == |head| {
          assert r[i] == ',';
        } else {
          assert r[i] == tail[i - |head| - 1] == ds[|ds| - 3 + (i - |head| - 1)];
          assert IsDigit(r[i]);
          SmallNotMultipleOfFour(|r| - i);
        }
      }
    }
  }

  lemma SmallNotMultipleOfFour(x: int)
    requires 1 <= x <= 3
    ensures x % 4 != 0
  {
  }

  lemma ShiftByFour(x: int)
    requires x >= 0
    ensures (x + 4) % 4 == x % 4
  {
  }

  /** The text with its commas removed. */
  function Ungroup(s: string): string
    decreases |s|
  {
    if |s| == 0 then "" else (if s[0] == ',' then "" else [s[0]]) + Ungroup(s[1..])
  }

  lemma {:induction false} UngroupWithoutCommas(s: string)
    requires forall i :: 0 <= i < |s| ==> s[i] != ','
    ensures Ungroup(s) == s
    decreases |s|
  {
    if |s| > 0 {
      UngroupWithoutCommas(s[1..]);
      assert s == [s[0]] + s[1..];
    }
  }

  lemma UngroupWithoutComma()
    ensures Ungroup(",") == ""
  {
    assert ","[1..] == "";
  }

  lemma {:induction false} UngroupConcat(a: string, b: string)
    ensures Ungroup(a + b) == Ungroup(a) + Ungroup(b)
    decreases |a|
  {
    if |a| > 0 {
      assert (a + b)[1..] == a[1..] + b;
      UngroupConcat(a[1..], b);
    } else {
      assert a + b == b;
    }
  }

  lemma UngroupAroundComma(g: string, tail: string)
    requires forall i :: 0 <= i < |tail| ==> tail[i] != ','
    ensures Ungroup(g + "," + tail) == Ungroup(g) + tail
  {
    calc {
      Ungroup(g + "," + tail);
      { UngroupConcat(g + ",", tail); }
      Ungroup(g + ",") + Ungroup(tail);
      { UngroupWithoutCommas(tail); }
      Ungroup(g + ",") + tail;
      { UngroupConcat(g, ","); UngroupWithoutComma(); }
      Ungroup(g) + tail;
    }
  }

  /** Removing the commas gives back the digits that were grouped. */
  lemma {:induction false} UngroupGroup(ds: string)
    requires |ds| >= 1 && forall i :: 0 <= i < |ds| ==> IsDigit(ds[i])
    ensures Ungroup(Group(ds)) == ds
    decreases |ds|
  {
    if |ds| <= 3 {
      UngroupWithoutCommas(ds);
    } else {
      var init, tail := ds[..|ds| - 3], ds[|ds| - 3..];
      assert Group(ds) == Group(init) + "," + tail;
      forall i | 0 <= i < |tail| ensures tail[i] != ',' {
        assert tail[i] == ds[|ds| - 3 + i];
      }
      UngroupAroundComma(Group(init), tail);
      UngroupGroup(init);
      assert ds == init + tail;
    }
  }

  /** `f"{n:,}"` for an integer `n`. */
  function GroupThousands(n: int): string {
    if n < 0 then "-" + Group(DecimalDigits(-n)) else Group(DecimalDigits(n))
  }

  /** The grouped text reads back as `n`: a leading minus sign exactly for
      negative totals, then the decimal digits of its magnitude with commas
      between groups of three. */
  lemma GroupThousandsRoundTrip(n: int)
    ensures var r := GroupThousands(n);
            && |r| >= 1
            && (r[0] == '-' <==> n < 0)
            && var magnitude := if n < 0 then r[1..] else r;
               && |magnitude| >= 1 && IsDigit(magnitude[0])
               && (forall i :: 0 <= i < |magnitude| ==> (magnitude[i] == ',' <==> (|magnitude| - i) % 4 == 0))
               && Ungroup(magnitude) == DecimalDigits(if n < 0 then -n else n)
  {
    var m := if n < 0 then -n else n;
    var g := Group(DecimalDigits(m));
    GroupShape(DecimalDigits(m));
    UngroupGroup(DecimalDigits(m));
    assert IsDigit(g[0]);
    if n < 0 {
      assert ("-" + g)[1..] == g;
    }
  }
}
