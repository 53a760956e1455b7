/** Worked calendars for the streak scans: March 2024, evaluated on
    2024-03-20. */
module Scenarios {
  import opened Wrappers
  import opened Dates
  import opened Calendar
  import opened Streaks

  /** The date text of a day of March 2024. */
  function MarchText(day: int): string
    requires 1 <= day <= 31
  {
    "2024-03-" + Digits2(day)
  }

  /** The ordinals used below are those of the proleptic Gregorian calendar. */
  lemma MarchOrdinals(day: int)
    requires 1 <= day <= 31
    ensures Ordinal(Date(2024, 3, day)) == 738945 + day
  {
  }

  /** A day of March 2024 (up to the 20th) with the given count, as the
      parser would produce it from that date's text. */
  function March(day: int, count: int): Day
    requires 1 <= day <= 20
  {
    Day(MarchText(day), 738945 + day, count)
  }

  /** Each text of `MarchText` parses to its day of March 2024. */
  lemma MarchDated(day: int)
    requires 1 <= day <= 20
    ensures ParseDate(MarchText(day)) == Some(Date(2024, 3, day))
    ensures Ordinal(Date(2024, 3, day)) == 738945 + day
  {
    MarchOrdinals(day);
    FormatParseRoundTrip(Date(2024, 3, day));
    MarchTextIsFormat(day);
  }

  lemma MarchTextIsFormat(day: int)
    requires 1 <= day <= 20
    ensures MarchText(day) == Format(Date(2024, 3, day))
  {
    assert Digits4(2024) == "2024";
    assert Digits2(3) == "03";
  }

  /** Consecutive March days starting on `first`, one per count. */
  function MarchFrom(first: int, counts: seq<int>): (days: seq<Day>)
    requires 1 <= first && first + |counts| <= 21
    ensures |days| == |counts|
    ensures forall i :: 0 <= i < |days| ==> days[i] == March(first + i, counts[i])
  {
    seq(|counts|, i requires 0 <= i < |counts| => March(first + i, counts[i]))
  }

  /** The scenario days are days the parser produces: valid date text and
      that date's ordinal. */
  lemma MarchFromIsDated(first: int, counts: seq<int>)
    requires 1 <= first && first + |counts| <= 21
    ensures forall i :: 0 <= i < |counts| ==> Dated(MarchFrom(first, counts)[i])
  {
    forall i | 0 <= i < |counts| ensures Dated(MarchFrom(first, counts)[i]) {
      MarchDated(first + i);
    }
  }

  /** Consecutive days are one calendar day apart, hence in date order. */
  lemma MarchFromInOrder(first: int, counts: seq<int>)
    requires 1 <= first && first + |counts| <= 21
    ensures GapFree(MarchFrom(first, counts)) && Chronological(MarchFrom(first, counts))
  {
    GapFreeIsChronological(MarchFrom(first, counts));
  }

  /** 2024-03-20 */
  const Today := 738965

  /** Contributions today and on each of the four days before: a current
      streak of 5 from 2024-03-16 to 2024-03-20, which is also the longest. */
  lemma FiveDaysUpToToday()
    ensures var days := MarchFrom(16, [1, 1, 1, 1, 1]);
            && CurrentStreak(days, Today) == Run(5, "2024-03-16", "2024-03-20")
            && LongestStreak(days) == 5
  {
    FiveDaysCurrent(MarchFrom(16, [1, 1, 1, 1, 1]));
    FiveDaysLongest(MarchFrom(16, [1, 1, 1, 1, 1]));
  }

  lemma FiveDaysCurrent(days: seq<Day>)
    requires days == MarchFrom(16, [1, 1, 1, 1, 1])
    ensures CurrentStreak(days, Today) == Run(5, "2024-03-16", "2024-03-20")
  {
    MarchFromInOrder(16, [1, 1, 1, 1, 1]);
    assert MarchText(16) == "2024-03-16" && MarchText(20) == "2024-03-20";
    assert LastActive(days, Today, 4);
    assert AllPositive(days, 0, 5);
    CurrentStreakIsBlockAtLastActive(days, Today, 0, 4);
  }

  lemma FiveDaysLongest(days: seq<Day>)
    requires days == MarchFrom(16, [1, 1, 1, 1, 1])
    ensures LongestStreak(days) == 5
  {
    assert IsRun(days, 0, 5);
  }


  /** Any calendar whose positive days are exactly those before index `z`,
      and whose first `z` days form a streak, has a longest streak of `z`. */
  lemma LongestOfLeadingRun(days: seq<Day>, z: int)
    requires 0 < z < |days|
    requires forall k :: 0 <= k < |days| ==> (days[k].count > 0 <==> k < z)
    requires IsRun(days, 0, z)
    ensures LongestStreak(days) == z
  {
    forall a, b | 0 <= a < b <= |days| && IsRun(days, a, b) ensures b - a <= z {
      assert days[a].count > 0;
      RunStopsAtZero(days, a, b, z);
    }
  }

  /** Six active days 2024-03-10..15 and nothing since: no current streak,
      a longest streak of 6. */
  lemma StaleRun()
    ensures var days := MarchFrom(10, [1, 1, 1, 1, 1, 1, 0, 0, 0, 0, 0]);
            && CurrentStreak(days, Today) == NoRun
            && LongestStreak(days) == 6
  {
    var days := MarchFrom(10, [1, 1, 1, 1, 1, 1, 0, 0, 0, 0, 0]);
    CurrentStreakNeedsActiveDay(days, Today);
    assert IsRun(days, 0, 6);
    LongestOfLeadingRun(days, 6);
  }

  /** No contributions at all: both streaks 0 and no dates. */
  lemma AllZero()
    ensures var days := MarchFrom(16, [0, 0, 0, 0, 0]);
            && CurrentStreak(days, Today) == NoRun
            && LongestStreak(days) == 0
  {
    var days := MarchFrom(16, [0, 0, 0, 0, 0]);
    CurrentStreakNeedsActiveDay(days, Today);
  }

  /** A calendar of 13 days whose only zero days are index 3 and the last
      two has a longest streak of 7 when indices 4..10 form a streak. */
  lemma LongestOfTwoRuns(days: seq<Day>)
    requires |days| == 13
    requires forall k :: 0 <= k < |days| ==> (days[k].count > 0 <==> k != 3 && k < 11)
    requires IsRun(days, 4, 11)
    ensures LongestStreak(days) == 7
  {
    forall a, b | 0 <= a < b <= |days| && IsRun(days, a, b) ensures b - a <= 7 {
      if a <= 3 {
        RunStopsAtZero(days, a, b, 3);
      } else {
        RunStopsAtZero(days, a, b, 11);
      }
    }
  }

  /** Runs of 3 and 7 separated by a zero day, the second ending on
      2024-03-15: no current streak, a longest streak of 7. */
  lemma TwoRunsApart()
    ensures var days := MarchFrom(5, [1, 1, 1, 0, 1, 1, 1, 1, 1, 1, 1, 0, 0]);
            && CurrentStreak(days, Today) == NoRun
            && LongestStreak(days) == 7
  {
    var counts := [1, 1, 1, 0, 1, 1, 1, 1, 1, 1, 1, 0, 0];
    var days := MarchFrom(5, counts);
    forall k | 0 <= k < |days|
      ensures days[k].ordinal == 738950 + k && (days[k].count > 0 <==> k != 3 && k < 11)
    {
      assert days[k] == March(5 + k, counts[k]);
    }
    CurrentStreakNeedsActiveDay(days, Today);
    assert IsRun(days, 4, 11);
    LongestOfTwoRuns(days);
  }

  /** A streak counts on from yesterday when today has no entry yet, and a
      zero entry for today is passed over while no streak is active. */
  lemma YesterdayAnchorsStreak()
    ensures var days := MarchFrom(17, [1, 1, 1, 0]);
            CurrentStreak(days, Today) == Run(3, "2024-03-17", "2024-03-19")
  {
    var days := MarchFrom(17, [1, 1, 1, 0]);
    MarchFromInOrder(17, [1, 1, 1, 0]);
    assert MarchText(17) == "2024-03-17" && MarchText(19) == "2024-03-19";
    assert LastActive(days, Today, 2);
    CurrentStreakIsBlockAtLastActive(days, Today, 0, 2);
  }
}
