/** The two scans of `calculate_streaks` over the date-sorted days: the
    backward current-streak scan and the forward longest-streak
    scan. `today` is the ordinal of the
    evaluator's local date. */
module Streaks {
  import opened Wrappers
  import opened Calendar
  import opened Dates

  /** The current streak as the backward scan leaves it: its length and the
      date text of its oldest (`start`) and newest (`end`) day, "" while the
      streak is empty. */
  datatype Run = Run(length: nat, start: string, end: string)

  const NoRun := Run(0, "", "")

  /** Dated today or yesterday: the one-day grace window of the
      current-streak loop. */
  predicate InWindow(d: Day, today: int) {
    d.ordinal <= today && today - d.ordinal <= 1
  }

  /** A day that can anchor a current streak. */
  predicate Active(d: Day, today: int) {
    InWindow(d, today) && d.count > 0
  }

  /** One step of the backward scan over day `d`: the streak to carry on
      with, or None when the scan stops here. */
  function BackStep(d: Day, today: int, acc: Run): Option<Run> {
    if InWindow(d, today) then
      if d.count > 0 then Some(Run(acc.length + 1, d.date, if acc.length == 0 then d.date else acc.end))
      else if acc.length > 0 then None  // a zero day breaks an active streak
      else Some(acc)
    else if d.ordinal < today - 1 then
      if d.count > 0 && acc.length > 0 then Some(Run(acc.length + 1, d.date, acc.end))
      else None  // no active streak found, or the streak ended
    else Some(acc)  // dated after today: skipped
  }

  /** Processes `days[i-1]`, `days[i-2]`, ..., `days[0]` with the streak so
      far in `acc`. */
  function ScanBack(days: seq<Day>, i: nat, today: int, acc: Run): (r: Run)
    requires i <= |days|
    ensures acc.length <= r.length <= acc.length + i
    ensures r.length == acc.length ==> r == acc
    ensures acc.length > 0 ==> r.end == acc.end
    decreases i
  {
    if i == 0 then acc
    else
      match BackStep(days[i - 1], today, acc)
      case None => acc
      case Some(next) => ScanBack(days, i - 1, today, next)
  }

  /** A streak the scan starts has its end on an active day, and an extended
      streak starts on a day with contributions. */
  lemma {:induction false} ScanBackSources(days: seq<Day>, i: nat, today: int, acc: Run)
    requires i <= |days|
    ensures var r := ScanBack(days, i, today, acc);
            && (r.length > acc.length ==> exists k :: 0 <= k < i && r.start == days[k].date && days[k].count > 0)
            && (acc.length == 0 && r.length > 0 ==> exists k :: 0 <= k < i && r.end == days[k].date && Active(days[k], today))
    decreases i
  {
    if i > 0 {
      var next := BackStep(days[i - 1], today, acc);
      if next.Some? {
        ScanBackSources(days, i - 1, today, next.value);
      }
    }
  }

  /** The current streak of `calculate_streaks`, scanning from the newest day back. */
  function CurrentStreak(days: seq<Day>, today: int): (r: Run)
    ensures r.length <= |days|
    ensures r.length == 0 <==> r == NoRun
    ensures r.length > 0 ==> exists k :: 0 <= k < |days| && r.start == days[k].date && days[k].count > 0
    ensures r.length > 0 ==> exists k :: 0 <= k < |days| && r.end == days[k].date && Active(days[k], today)
  {
    ScanBackSources(days, |days|, today, NoRun);
    ScanBack(days, |days|, today, NoRun)
  }

  // ---------------------------------------------------------------------
  // What the current streak is, on date-sorted days

  /** `b` is the newest day that is dated today or yesterday and has
      contributions. */
  predicate LastActive(days: seq<Day>, today: int, b: int) {
    && 0 <= b < |days|
    && Active(days[b], today)
    && forall j :: b < j < |days| ==> !Active(days[j], today)
  }

  predicate AllPositive(days: seq<Day>, a: int, b: int)
    requires 0 <= a <= b <= |days|
  {
    forall k :: a <= k < b ==> days[k].count > 0
  }

  lemma {:induction false} SkipAfterLastActive(days: seq<Day>, today: int, b: int, n: int)
    requires Chronological(days)
    requires LastActive(days, today, b)
    requires b < n <= |days|
    ensures ScanBack(days, n, today, NoRun) == ScanBack(days, b + 1, today, NoRun)
    decreases n
  {
    if n > b + 1 {
      assert days[b].ordinal <= days[n - 1].ordinal;
      SkipAfterLastActive(days, today, b, n - 1);
    }
  }

  lemma {:induction false} ExtendDown(days: seq<Day>, today: int, a: int, m: int, acc: Run)
    requires 0 <= a <= m <= |days|
    requires AllPositive(days, a, m)
    requires forall k :: 0 <= k < m ==> days[k].ordinal <= today
    requires a == 0 || days[a - 1].count <= 0
    requires acc.length > 0
    ensures ScanBack(days, m, today, acc) == if m == a then acc else Run(acc.length + (m - a), days[a].date, acc.end)
    decreases m
  {
    if m > a {
      var next := Run(acc.length + 1, days[m - 1].date, acc.end);
      assert ScanBack(days, m, today, acc) == ScanBack(days, m - 1, today, next);
      ExtendDown(days, today, a, m - 1, next);
    }
  }

  /** With a newest active day `b`, the current streak is the unbroken block
      of positive days ending at `b`: it runs back to the first zero day,
      whatever the dates in between. */
  lemma CurrentStreakIsBlockAtLastActive(days: seq<Day>, today: int, a: int, b: int)
    requires Chronological(days)
    requires LastActive(days, today, b)
    requires 0 <= a <= b && AllPositive(days, a, b + 1)
    requires a == 0 || days[a - 1].count <= 0
    ensures CurrentStreak(days, today) == Run(b - a + 1, days[a].date, days[b].date)
  {
    SkipAfterLastActive(days, today, b, |days|);
    var first := Run(1, days[b].date, days[b].date);
    assert ScanBack(days, b + 1, today, NoRun) == ScanBack(days, b, today, first);
    assert forall k :: 0 <= k < b ==> days[k].ordinal <= days[b].ordinal;
    ExtendDown(days, today, a, b, first);
  }

  lemma {:induction false} NoActiveNoRun(days: seq<Day>, today: int, i: nat)
    requires i <= |days|
    requires forall j :: 0 <= j < i ==> !Active(days[j], today)
    ensures ScanBack(days, i, today, NoRun) == NoRun
    decreases i
  {
    if i > 0 {
      NoActiveNoRun(days, today, i - 1);
    }
  }

  /** Without a day dated today or yesterday that has contributions there is
      no current streak, in whatever order the days come: a stale calendar,
      or one whose anchor days are zero, yields 0. */
  lemma CurrentStreakNeedsActiveDay(days: seq<Day>, today: int)
    ensures (forall j :: 0 <= j < |days| ==> !Active(days[j], today)) ==> CurrentStreak(days, today) == NoRun
  {
    if forall j :: 0 <= j < |days| ==> !Active(days[j], today) {
      NoActiveNoRun(days, today, |days|);
    }
  }

  lemma {:induction false} ScanBackSkipsFuture(days: seq<Day>, future: seq<Day>, today: int, n: nat, acc: Run)
    requires forall j :: 0 <= j < |future| ==> future[j].ordinal > today
    requires |days| <= n <= |days| + |future|
    ensures ScanBack(days + future, n, today, acc) == ScanBack(days, |days|, today, acc)
    decreases n
  {
    var all := days + future;
    if n > |days| {
      assert all[n - 1] == future[n - 1 - |days|];
      ScanBackSkipsFuture(days, future, today, n - 1, acc);
    } else {
      ScanBackPrefix(days, future, today, n, acc);
    }
  }

  /** The scan of the first `n` entries reads nothing beyond them. */
  lemma {:induction false} ScanBackPrefix(days: seq<Day>, more: seq<Day>, today: int, n: nat, acc: Run)
    requires n <= |days|
    ensures ScanBack(days + more, n, today, acc) == ScanBack(days, n, today, acc)
  {
    ScanBackAgree(days + more, days, today, n, acc);
  }

  lemma {:induction false} ScanBackAgree(xs: seq<Day>, ys: seq<Day>, today: int, n: nat, acc: Run)
    requires n <= |xs| && n <= |ys|
    requires forall k :: 0 <= k < n ==> xs[k] == ys[k]
    ensures ScanBack(xs, n, today, acc) == ScanBack(ys, n, today, acc)
    decreases n
  {
    if n > 0 {
      assert ys[n - 1] == xs[n - 1];
      var next := BackStep(xs[n - 1], today, acc);
      if next.Some? {
        ScanBackAgree(xs, ys, today, n - 1, next.value);
      }
    }
  }

  /** Days dated after today neither extend nor break the current streak. */
  lemma FutureDaysAreIgnored(days: seq<Day>, future: seq<Day>, today: int)
    requires forall j :: 0 <= j < |future| ==> future[j].ordinal > today
    ensures CurrentStreak(days + future, today) == CurrentStreak(days, today)
  {
    ScanBackSkipsFuture(days, future, today, |days| + |future|, NoRun);
  }

  /** The start and end of a current streak are empty exactly when it has
      length 0 (every date text being non-empty). */
  lemma CurrentStreakEmptyIff(days: seq<Day>, today: int)
    requires forall k :: 0 <= k < |days| ==> days[k].date != ""
    ensures var r := CurrentStreak(days, today);
            r.length == 0 <==> r.start == "" && r.end == ""
  {
  }

  /** On date-sorted days a current streak starts no later than it ends, and
      it ends today or yesterday. */
  lemma CurrentStreakBounds(days: seq<Day>, today: int)
    requires Chronological(days)
    ensures var r := CurrentStreak(days, today);
            r.length > 0 ==> exists a, b :: 0 <= a <= b < |days| && r.start == days[a].date && r.end == days[b].date
                                           && b - a + 1 == r.length && InWindow(days[b], today)
  {
    var r := CurrentStreak(days, today);
    if r.length > 0 {
      if forall j :: 0 <= j < |days| ==> !Active(days[j], today) {
        CurrentStreakNeedsActiveDay(days, today);
      } else {
        var b := LastActiveIndex(days, today);
        var a := BlockStart(days, b);
        CurrentStreakIsBlockAtLastActive(days, today, a, b);
      }
    }
  }

  /** The newest active day, when there is one. */
  lemma LastActiveIndex(days: seq<Day>, today: int) returns (b: int)
    requires exists j :: 0 <= j < |days| && Active(days[j], today)
    ensures LastActive(days, today, b)
  {
    b := |days| - 1;
    while !Active(days[b], today)
      invariant 0 <= b < |days|
      invariant exists j :: 0 <= j <= b && Active(days[j], today)
      invariant forall j :: b < j < |days| ==> !Active(days[j], today)
      decreases b
    {
      b := b - 1;
    }
  }

  /** The oldest day of the block of positive days ending at `b`. */
  lemma BlockStart(days: seq<Day>, b: int) returns (a: int)
    requires 0 <= b < |days| && days[b].count > 0
    ensures 0 <= a <= b && AllPositive(days, a, b + 1) && (a == 0 || days[a - 1].count <= 0)
  {
    a := b;
    while a > 0 && days[a - 1].count > 0
      invariant 0 <= a <= b
      invariant AllPositive(days, a, b + 1)
      decreases a
    {
      a := a - 1;
    }
  }

  // ---------------------------------------------------------------------
  // Longest streak

  /** The forward scan's variables: `temp_streak`, `longest_streak` and
      `prev_date` (the ordinal of the last day with contributions).
      `longest_start`/`longest_end` are never returned and are not kept. */
  datatype Tally = Tally(temp: nat, longest: nat, prev: Option<int>)

  /** One iteration of the longest-streak loop. `prev` moves only on days with
      contributions, and a restart after a date gap does not compare with
      the longest streak. */
  function Step(t: Tally, d: Day): Tally {
    if d.count > 0 then
      if t.prev.None? || d.ordinal - t.prev.value == 1 then
        var temp := t.temp + 1;
        Tally(temp, if temp > t.longest then temp else t.longest, Some(d.ordinal))
      else Tally(1, t.longest, Some(d.ordinal))
    else if t.temp > 0 then Tally(0, t.longest, t.prev)
    else t
  }

  /** The scan's state after the first `i` days. */
  function TallyUpTo(days: seq<Day>, i: nat): Tally
    requires i <= |days|
    decreases i
  {
    if i == 0 then Tally(0, 0, None) else Step(TallyUpTo(days, i - 1), days[i - 1])
  }

  /** `days[a..b]` is a streak: every day has contributions and each is dated
      exactly one day after the one before it. */
  predicate IsRun(days: seq<Day>, a: int, b: int) {
    && 0 <= a < b <= |days|
    && (forall k :: a <= k < b ==> days[k].count > 0)
    && (forall k :: a < k < b ==> days[k].ordinal == days[k - 1].ordinal + 1)
  }

  /** A day without contributions ends every streak that reaches it. */
  lemma RunStopsAtZero(days: seq<Day>, a: int, b: int, k: int)
    requires IsRun(days, a, b)
    requires a <= k < |days| && days[k].count <= 0
    ensures b <= k
  {
  }

  /** The run still open after `i` days: it ends at the last day when that
      day has contributions, and no streak ending there is longer. */
  ghost predicate OpenRun(days: seq<Day>, i: nat, t: Tally)
    requires i <= |days|
  {
    && (0 < i && days[i - 1].count > 0 ==>
          && t.prev == Some(days[i - 1].ordinal)
          && 0 < t.temp <= i
          && IsRun(days, i - t.temp, i)
          && forall a :: 0 <= a < i && IsRun(days, a, i) ==> i - a <= t.temp)
    && (i == 0 || days[i - 1].count <= 0 ==> t.temp == 0)
  }

  /** No streak within the first `i` days is longer than `longest`. */
  ghost predicate LongestBound(days: seq<Day>, i: nat, longest: nat)
    requires i <= |days|
  {
    forall a, b :: 0 <= a < b <= i && IsRun(days, a, b) ==> b - a <= longest
  }

  /** A positive `longest` is the length of some streak within the first `i` days. */
  ghost predicate LongestWitness(days: seq<Day>, i: nat, longest: nat)
    requires i <= |days|
  {
    longest > 0 ==> exists a, b :: 0 <= a < b <= i && b - a == longest && IsRun(days, a, b)
  }

  ghost predicate TallyInv(days: seq<Day>, i: nat, t: Tally)
    requires i <= |days|
  {
    && (t.prev.Some? ==> t.longest >= 1)
    && OpenRun(days, i, t)
    && LongestBound(days, i, t.longest)
    && LongestWitness(days, i, t.longest)
  }

  /** A streak of two or more days ends in a streak one day shorter. */
  lemma RunDropLast(days: seq<Day>, a: int, n: int)
    requires IsRun(days, a, n) && a < n - 1
    ensures IsRun(days, a, n - 1) && days[n - 1].ordinal == days[n - 2].ordinal + 1
  {
  }

  /** A streak extends by a following day with contributions dated one day later. */
  lemma RunAddLast(days: seq<Day>, a: int, n: int)
    requires IsRun(days, a, n) && n < |days|
    requires days[n].count > 0 && days[n].ordinal == days[n - 1].ordinal + 1
    ensures IsRun(days, a, n + 1)
  {
  }

  /** The longest-streak loop keeps the open run up to date. */
  lemma StepKeepsOpenRun(days: seq<Day>, i: nat, t: Tally)
    requires i < |days|
    requires OpenRun(days, i, t)
    ensures OpenRun(days, i + 1, Step(t, days[i]))
  {
    var d := days[i];
    var t' := Step(t, d);
    var n := i + 1;
    if d.count > 0 {
      assert IsRun(days, i, n);
      if t.prev.None? || d.ordinal - t.prev.value == 1 {
        if t.temp > 0 {
          RunAddLast(days, i - t.temp, i);
        }
        forall a | 0 <= a < n && IsRun(days, a, n)
          ensures n - a <= t'.temp
        {
          if a < i {
            RunDropLast(days, a, n);
          }
        }
      } else {
        forall a | 0 <= a < n && IsRun(days, a, n)
          ensures a == i
        {
          if a < i {
            RunDropLast(days, a, n);
          }
        }
      }
    }
  }

  /** Every streak within the first `i + 1` days either lies within the first
      `i` or is one ending at day `i`. */
  lemma StepKeepsLongestBound(days: seq<Day>, i: nat, t: Tally)
    requires i < |days|
    requires t.prev.Some? ==> t.longest >= 1
    requires LongestBound(days, i, t.longest)
    requires OpenRun(days, i + 1, Step(t, days[i]))
    ensures LongestBound(days, i + 1, Step(t, days[i]).longest)
  {
    var t' := Step(t, days[i]);
    forall a, b | 0 <= a < b <= i + 1 && IsRun(days, a, b)
      ensures b - a <= t'.longest
    {
      if b <= i {
        assert b - a <= t.longest;
      } else {
        assert days[i].count > 0;
        assert b - a <= t'.temp;
      }
    }
  }

  lemma StepKeepsLongestWitness(days: seq<Day>, i: nat, t: Tally)
    requires i < |days|
    requires t.prev.Some? ==> t.longest >= 1
    requires LongestWitness(days, i, t.longest)
    requires OpenRun(days, i + 1, Step(t, days[i]))
    ensures LongestWitness(days, i + 1, Step(t, days[i]).longest)
  {
    var t' := Step(t, days[i]);
    if t'.longest == t.longest && t.longest > 0 {
      var a, b :| 0 <= a < b <= i && b - a == t.longest && IsRun(days, a, b);
      assert 0 <= a < b <= i + 1;
    } else if t'.longest != t.longest {
      assert IsRun(days, i + 1 - t'.temp, i + 1);
    }
  }

  lemma StepKeepsInv(days: seq<Day>, i: nat, t: Tally)
    requires i < |days|
    requires TallyInv(days, i, t)
    ensures TallyInv(days, i + 1, Step(t, days[i]))
  {
    StepKeepsOpenRun(days, i, t);
    StepKeepsLongestBound(days, i, t);
    StepKeepsLongestWitness(days, i, t);
  }

  lemma {:induction false} TallyInvHolds(days: seq<Day>, i: nat)
    requires i <= |days|
    ensures TallyInv(days, i, TallyUpTo(days, i))
    decreases i
  {
    if i > 0 {
      TallyInvHolds(days, i - 1);
      StepKeepsInv(days, i - 1, TallyUpTo(days, i - 1));
    }
  }

  /** The longest streak of `calculate_streaks`: the length of the longest streak of consecutive dated
      days with contributions, 0 when no day has any. */
  function LongestStreak(days: seq<Day>): (r: nat)
    ensures forall a, b :: 0 <= a < b <= |days| && IsRun(days, a, b) ==> b - a <= r
    ensures r > 0 ==> exists a, b :: 0 <= a < b <= |days| && b - a == r && IsRun(days, a, b)
    ensures r <= |days|
    ensures r == 0 <==> forall k :: 0 <= k < |days| ==> days[k].count <= 0
  {
    TallyInvHolds(days, |days|);
    var r := TallyUpTo(days, |days|).longest;
    assert forall k :: 0 <= k < |days| && days[k].count > 0 ==> IsRun(days, k, k + 1);
    assert r > 0 ==> exists k :: 0 <= k < |days| && days[k].count > 0 by {
      if r > 0 {
        var a, b :| 0 <= a < b <= |days| && b - a == r && IsRun(days, a, b);
        assert days[a].count > 0;
      }
    }
    r
  }

  /** The days are distinct and consecutive on the calendar: each is dated one
      day after the one before it. */
  predicate GapFree(days: seq<Day>) {
    forall k :: 0 < k < |days| ==> days[k].ordinal == days[k - 1].ordinal + 1
  }

  /** On a gap-free calendar the current streak is one of the streaks the
      forward scan measures, so it never exceeds the longest streak. */
  lemma LongestCoversCurrent(days: seq<Day>, today: int)
    requires GapFree(days)
    ensures CurrentStreak(days, today).length <= LongestStreak(days)
  {
    var r := CurrentStreak(days, today);
    if r.length > 0 {
      assert Chronological(days) by {
        GapFreeIsChronological(days);
      }
      if forall j :: 0 <= j < |days| ==> !Active(days[j], today) {
        CurrentStreakNeedsActiveDay(days, today);
      } else {
        var b := LastActiveIndex(days, today);
        var a := BlockStart(days, b);
        CurrentStreakIsBlockAtLastActive(days, today, a, b);
        assert IsRun(days, a, b + 1);
      }
    }
  }

  lemma {:induction false} GapFreeIsChronological(days: seq<Day>)
    requires GapFree(days)
    ensures Chronological(days)
  {
    forall i, j | 0 <= i < j < |days| ensures days[i].ordinal <= days[j].ordinal {
      GapFreeDistance(days, i, j);
    }
  }

  lemma {:induction false} GapFreeDistance(days: seq<Day>, i: int, j: int)
    requires GapFree(days)
    requires 0 <= i <= j < |days|
    ensures days[j].ordinal == days[i].ordinal + (j - i)
    decreases j - i
  {
    if i < j {
      GapFreeDistance(days, i, j - 1);
    }
  }

  /** Without the gap-free assumption the bound fails: the backward scan
      counts two positive days ten days apart as a streak of 2, while the
      forward scan sees two streaks of 1. */
  lemma CurrentCanExceedLongestAcrossGap()
    ensures var days := [Day("2024-01-01", 738886, 1), Day("2024-01-10", 738895, 1)];
            && Dated(days[0]) && Dated(days[1])
            && CurrentStreak(days, 738895).length == 2 && LongestStreak(days) == 1
  {
    JanuaryDaysAreDated();
    ScansAcrossJanuaryGap([Day("2024-01-01", 738886, 1), Day("2024-01-10", 738895, 1)]);
  }

  lemma ScansAcrossJanuaryGap(days: seq<Day>)
    requires days == [Day("2024-01-01", 738886, 1), Day("2024-01-10", 738895, 1)]
    ensures CurrentStreak(days, 738895).length == 2 && LongestStreak(days) == 1
  {
    CurrentStreakIsBlockAtLastActive(days, 738895, 0, 1);
    assert !IsRun(days, 0, 2);
  }

  lemma JanuaryDaysAreDated()
    ensures Dated(Day("2024-01-01", 738886, 1)) && Dated(Day("2024-01-10", 738895, 1))
  {
    FormatParseRoundTrip(Date(2024, 1, 1));
    FormatParseRoundTrip(Date(2024, 1, 10));
    assert Format(Date(2024, 1, 1)) == "2024-01-01";
    assert Format(Date(2024, 1, 10)) == "2024-01-10";
  }
}
