/** `StreakStats.calculate_streaks`: the whole calculation from the decoded
    API response to the five-field result, with the zero result standing in
    for every exception the calculation catches. */
module Stats {
  import opened Wrappers
  import opened JsonValues
  import opened Dates
  import opened Calendar
  import opened Streaks
  import opened Labels

  /** The returned tuple (current_streak, longest_streak, total_contributions,
      start_date, end_date). The total is whatever value the response
      declares. */
  datatype StreakStats = StreakStats(
    currentStreak: nat,
    longestStreak: nat,
    totalContributions: Json,
    currentStreakStart: string,
    currentStreakEnd: string)

  /** `(0, 0, 0, "", "")`, returned when anything raises. */
  const Zero := StreakStats(0, 0, JNum(0), "", "")

  /** The extracted days in the order the scans visit them. */
  function SortedDays(cal: Calendar): (days: seq<Day>)
    requires forall i :: 0 <= i < |cal.days| ==> Dated(cal.days[i])
    ensures multiset(days) == multiset(cal.days)
    ensures forall i :: 0 <= i < |days| ==> Dated(days[i])
    ensures Chronological(days)
  {
    var days := SortByDate(cal.days);
    assert forall i :: 0 <= i < |days| ==> days[i] in multiset(cal.days);
    SortedByDateIsChronological(days);
    days
  }

  /** The statistics of an extracted calendar: sort, both scans, and the
      five result fields. */
  function StatsOf(cal: Calendar, today: int): (r: StreakStats)
    requires forall i :: 0 <= i < |cal.days| ==> Dated(cal.days[i])
    ensures r.totalContributions == cal.total
    ensures r.currentStreak <= |cal.days| && r.longestStreak <= |cal.days|
    ensures r.currentStreak == 0 <==> r.currentStreakStart == "" && r.currentStreakEnd == ""
    ensures r.currentStreak > 0 ==> StreakDatesInOrder(r.currentStreakStart, r.currentStreakEnd, today)
  {
    var days := SortedDays(cal);
    var current := CurrentStreak(days, today);
    CurrentStreakDatesEmptyIff(days, today);
    CurrentStreakDates(days, today);
    StreakStats(current.length, LongestStreak(days), cal.total, current.start, current.end)
  }

  /** Both streak dates are valid dates, the start no later than the end, and
      the end today or yesterday. */
  predicate StreakDatesInOrder(start: string, end: string, today: int) {
    && ParseDate(start).Some?
    && ParseDate(end).Some?
    && Ordinal(ParseDate(start).value) <= Ordinal(ParseDate(end).value)
    && today - 1 <= Ordinal(ParseDate(end).value) <= today
  }

  /** On dated days the current streak has no dates exactly when it is empty. */
  lemma CurrentStreakDatesEmptyIff(days: seq<Day>, today: int)
    requires forall i :: 0 <= i < |days| ==> Dated(days[i])
    ensures var c := CurrentStreak(days, today);
            c.length == 0 <==> c.start == "" && c.end == ""
  {
    forall k | 0 <= k < |days| ensures days[k].date != "" {
      DatedTextIsNotEmpty(days[k]);
    }
    CurrentStreakEmptyIff(days, today);
  }

  /** On dated, sorted days a current streak has dates in order that end
      today or yesterday. */
  lemma CurrentStreakDates(days: seq<Day>, today: int)
    requires forall i :: 0 <= i < |days| ==> Dated(days[i])
    requires Chronological(days)
    ensures var c := CurrentStreak(days, today);
            c.length > 0 ==> StreakDatesInOrder(c.start, c.end, today)
  {
    var c := CurrentStreak(days, today);
    if c.length > 0 {
      CurrentStreakBounds(days, today);
      var a, b :| 0 <= a <= b < |days| && c.start == days[a].date && c.end == days[b].date
                  && b - a + 1 == c.length && InWindow(days[b], today);
      DatedPairInOrder(days[a], days[b], today);
    }
  }

  lemma DatedTextIsNotEmpty(d: Day)
    requires Dated(d)
    ensures d.date != ""
  {
  }

  lemma DatedPairInOrder(first: Day, last: Day, today: int)
    requires Dated(first) && Dated(last)
    requires first.ordinal <= last.ordinal && InWindow(last, today)
    ensures StreakDatesInOrder(first.date, last.date, today)
  {
  }

  /** `calculate_streaks` evaluated on the local date whose ordinal is
      `today`. */
  function CalculateStreaks(data: Json, today: int): (r: StreakStats)
    requires today > 1
    ensures !WellFormed(data) ==> r == Zero
    ensures WellFormed(data) ==> Some(r.totalContributions) == DeclaredTotal(data)
    ensures WellFormed(data) ==> && DayRecords(data).Some?
                                 && r.currentStreak <= |DayRecords(data).value|
                                 && r.longestStreak <= |DayRecords(data).value|
    ensures r.currentStreak == 0 <==> r.currentStreakStart == "" && r.currentStreakEnd == ""
    ensures r.currentStreak > 0 ==> StreakDatesInOrder(r.currentStreakStart, r.currentStreakEnd, today)
  {
    ParsesIffWellFormed(data);
    match ParseCalendar(data)
    case None => Zero
    case Some(cal) => StatsOf(cal, today)
  }

  /** An empty response (what the fetcher returns when both requests fail)
      gives the zero result. */
  lemma EmptyResponseGivesZero(today: int)
    requires today > 1
    ensures CalculateStreaks(JObj([]), today) == Zero
  {
  }

  /** One day whose date `strptime` rejects zeroes the whole result, however
      good the other days are. */
  lemma OneBadDateZeroesEverything(data: Json, today: int, week: Json, day: Json)
    requires today > 1
    requires CalendarObject(data).Some?
    requires Lookup(CalendarObject(data).value, "weeks").Some?
    requires Elements(Lookup(CalendarObject(data).value, "weeks").value).Some?
    requires week in Elements(Lookup(CalendarObject(data).value, "weeks").value).value
    requires DayItems(week).Some? && day in DayItems(week).value
    requires Lookup(day, "date").Some? && Lookup(day, "date").value.JStr?
    requires ParseDate(Lookup(day, "date").value.s).None?
    ensures CalculateStreaks(data, today) == Zero
  {
    assert !DayOk(day);
    assert !WellFormed(data);
  }

  /** The current streak of a well-formed response, described without the
      scan: when the newest day dated today or yesterday with contributions
      is `b`, it is the block of days with contributions that ends at `b`. */
  lemma CurrentStreakOfResponse(data: Json, today: int, a: int, b: int)
    requires today > 1
    requires ParseCalendar(data).Some?
    requires var days := SortedDays(ParseCalendar(data).value);
             && LastActive(days, today, b)
             && 0 <= a <= b && AllPositive(days, a, b + 1)
             && (a == 0 || days[a - 1].count <= 0)
    ensures var days := SortedDays(ParseCalendar(data).value);
            var r := CalculateStreaks(data, today);
            && r.currentStreak == b - a + 1
            && r.currentStreakStart == days[a].date
            && r.currentStreakEnd == days[b].date
  {
    var cal := ParseCalendar(data).value;
    var days := SortedDays(cal);
    CurrentStreakIsBlockAtLastActive(days, today, a, b);
    var c := CurrentStreak(days, today);
    assert CalculateStreaks(data, today) == StatsOf(cal, today);
    assert StatsOf(cal, today).currentStreak == c.length;
    assert StatsOf(cal, today).currentStreakStart == c.start;
    assert StatsOf(cal, today).currentStreakEnd == c.end;
  }

  /** Without a day dated today or yesterday that has contributions, the
      current streak of a response is 0. */
  lemma NoCurrentStreakWithoutActiveDay(data: Json, today: int)
    requires today > 1
    requires ParseCalendar(data).Some?
    requires var days := ParseCalendar(data).value.days;
             forall j :: 0 <= j < |days| ==> !Active(days[j], today)
    ensures CalculateStreaks(data, today).currentStreak == 0
  {
    var cal := ParseCalendar(data).value;
    var days := SortedDays(cal);
    forall j | 0 <= j < |days| ensures !Active(days[j], today) {
      assert days[j] in multiset(cal.days);
    }
    CurrentStreakNeedsActiveDay(days, today);
  }

  /** The longest streak of a response is the length of its longest run of
      consecutive dated days with contributions. */
  lemma LongestStreakOfResponse(data: Json, today: int)
    requires today > 1
    requires ParseCalendar(data).Some?
    ensures var days := SortedDays(ParseCalendar(data).value);
            var r := CalculateStreaks(data, today);
            && (forall a, b :: 0 <= a < b <= |days| && IsRun(days, a, b) ==> b - a <= r.longestStreak)
            && (r.longestStreak > 0 ==> exists a, b :: 0 <= a < b <= |days| && b - a == r.longestStreak && IsRun(days, a, b))
  {
  }

  /** On a calendar of distinct consecutive dates the longest streak is at
      least the current one. */
  lemma LongestCoversCurrentOnGapFreeResponse(data: Json, today: int)
    requires today > 1
    requires ParseCalendar(data).Some?
    requires GapFree(SortedDays(ParseCalendar(data).value))
    ensures CalculateStreaks(data, today).longestStreak >= CalculateStreaks(data, today).currentStreak
  {
    LongestCoversCurrent(SortedDays(ParseCalendar(data).value), today);
  }

  /** The date line the renderer shows says "No active streak" exactly when
      the current streak is 0. */
  lemma DateRangeTracksCurrentStreak(data: Json, today: int)
    requires today > 1
    ensures var r := CalculateStreaks(data, today);
            DateRange(r.currentStreakStart) == "No active streak" <==> r.currentStreak == 0
  {
    var r := CalculateStreaks(data, today);
    if r.currentStreak > 0 {
      assert r.currentStreakStart != "N/A";
    }
  }
}
