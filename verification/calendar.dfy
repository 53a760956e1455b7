/** Extracting the contribution days from the decoded API response and
    putting them in date order, as the first half of `calculate_streaks`
    does. Every step that raises in Python yields None here. */
module Calendar {
  import opened Wrappers
  import opened JsonValues
  import opened Lexical
  import opened Dates

  /** One contribution day: the date text as the data gives it, the ordinal
      of that date, and the contribution count. */
  datatype Day = Day(date: string, ordinal: int, count: int)

  /** The date text is a valid `YYYY-MM-DD` date and `ordinal` is its ordinal. */
  predicate Dated(d: Day) {
    ParseDate(d.date).Some? && d.ordinal == Ordinal(ParseDate(d.date).value)
  }

  /** The extracted calendar: the declared total, passed on untouched, and
      the days in the order the weeks list them. */
  datatype Calendar = Calendar(total: Json, days: seq<Day>)

  /** The contribution calendar object, reached through the members "data",
      "user", "contributionsCollection" and "contributionCalendar" in turn. */
  function CalendarObject(data: Json): Option<Json> {
    var d :- Lookup(data, "data");
    var u :- Lookup(d, "user");
    var c :- Lookup(u, "contributionsCollection");
    Lookup(c, "contributionCalendar")
  }

  /** The day records of one week: its "contributionDays" member, iterated. */
  function DayItems(week: Json): Option<seq<Json>> {
    var days :- Lookup(week, "contributionDays");
    Elements(days)
  }

  /** Comparing a contribution count with 0 raises TypeError unless the count
      is a number or a boolean (True compares as 1, False as 0). */
  function CountOf(j: Json): Option<int> {
    match j
    case JNum(n) => Some(n)
    case JBool(b) => Some(if b then 1 else 0)
    case _ => None
  }

  /** What `calculate_streaks` needs of one day record: a `date` member
      holding a string that `strptime` accepts, and a `contributionCount`
      that compares with 0. */
  predicate DayOk(j: Json) {
    && Lookup(j, "date").Some?
    && Lookup(j, "date").value.JStr?
    && ParseDate(Lookup(j, "date").value.s).Some?
    && Lookup(j, "contributionCount").Some?
    && CountOf(Lookup(j, "contributionCount").value).Some?
  }

  function ParseDay(j: Json): Option<Day> {
    var dateValue :- Lookup(j, "date");
    var countValue :- Lookup(j, "contributionCount");
    var count :- CountOf(countValue);
    if !dateValue.JStr? then None
    else
      var date :- ParseDate(dateValue.s);
      Some(Day(dateValue.s, Ordinal(date), count))
  }

  /** `d` carries the `date` text and the contribution count of record `j`. */
  predicate RecordOf(j: Json, d: Day) {
    && Lookup(j, "date") == Some(JStr(d.date))
    && Lookup(j, "contributionCount").Some?
    && CountOf(Lookup(j, "contributionCount").value) == Some(d.count)
  }

  /** A day parses exactly when it is acceptable, and then carries its
      `date` member's text and that date's ordinal. */
  lemma ParseDayMeaning(j: Json)
    ensures ParseDay(j).Some? <==> DayOk(j)
    ensures ParseDay(j).Some? ==> Dated(ParseDay(j).value)
    ensures ParseDay(j).Some? ==> Lookup(j, "date") == Some(JStr(ParseDay(j).value.date))
    ensures ParseDay(j).Some? ==> Lookup(j, "contributionCount").Some?
                                  && CountOf(Lookup(j, "contributionCount").value) == Some(ParseDay(j).value.count)
  {
  }

  /** Parses every element; one element that fails makes the whole list fail. */
  function ParseDays(items: seq<Json>): (r: Option<seq<Day>>)
    ensures r.Some? <==> forall i :: 0 <= i < |items| ==> DayOk(items[i])
    ensures r.Some? ==> |r.value| == |items|
    ensures r.Some? ==> forall i :: 0 <= i < |items| ==> Some(r.value[i]) == ParseDay(items[i])
  {
    if forall i :: 0 <= i < |items| ==> DayOk(items[i]) then
      Some(seq(|items|, i requires 0 <= i < |items| => ParseDayMeaning(items[i]); ParseDay(items[i]).value))
    else None
  }

  /** Concatenates the day records of every week, in week order. */
  function FlattenWeeks(weeks: seq<Json>): (r: Option<seq<Json>>)
    ensures r.Some? <==> forall w :: w in weeks ==> DayItems(w).Some?
    decreases |weeks|
  {
    if |weeks| == 0 then Some([])
    else
      var first :- DayItems(weeks[0]);
      var rest :- FlattenWeeks(weeks[1..]);
      assert forall w :: w in weeks <==> w == weeks[0] || w in weeks[1..];
      Some(first + rest)
  }

  /** A record is among the flattened days exactly when some week lists it. */
  lemma {:induction false} FlattenWeeksMembers(weeks: seq<Json>)
    requires FlattenWeeks(weeks).Some?
    ensures forall j :: j in FlattenWeeks(weeks).value <==>
                        exists w :: w in weeks && DayItems(w).Some? && j in DayItems(w).value
    decreases |weeks|
  {
    if |weeks| > 0 {
      FlattenWeeksMembers(weeks[1..]);
      assert forall w :: w in weeks <==> w == weeks[0] || w in weeks[1..];
    }
  }

  /** Flattening a list of weeks made of two parts gives the days of the
      first part followed by those of the second. */
  lemma {:induction false} FlattenWeeksAppend(a: seq<Json>, b: seq<Json>)
    ensures FlattenWeeks(a + b) == Joined(FlattenWeeks(a), FlattenWeeks(b))
    decreases |a|
  {
    if |a| == 0 {
      assert a + b == b;
      if FlattenWeeks(b).Some? {
        assert [] + FlattenWeeks(b).value == FlattenWeeks(b).value;
      }
    } else {
      FlattenWeeksAppend(a[1..], b);
      FlattenWeeksAppendStep(a, b);
    }
  }

  /** Two optional day lists joined, failing when either is missing. */
  function Joined(x: Option<seq<Json>>, y: Option<seq<Json>>): Option<seq<Json>> {
    if x.Some? && y.Some? then Some(x.value + y.value) else None
  }

  /** The inductive step of `FlattenWeeksAppend`: moving the first week out
      of the appended list. */
  lemma FlattenWeeksAppendStep(a: seq<Json>, b: seq<Json>)
    requires |a| > 0
    requires FlattenWeeks(a[1..] + b) == Joined(FlattenWeeks(a[1..]), FlattenWeeks(b))
    ensures FlattenWeeks(a + b) == Joined(FlattenWeeks(a), FlattenWeeks(b))
  {
    var ab := a + b;
    var first, tail, rest := DayItems(a[0]), FlattenWeeks(a[1..]), FlattenWeeks(b);
    calc {
      FlattenWeeks(ab);
    == { FlattenWeeksCons(ab); }
      Joined(DayItems(ab[0]), FlattenWeeks(ab[1..]));
    == { AppendSplitsAtHead(a, b); }
      Joined(first, FlattenWeeks(a[1..] + b));
    ==
      Joined(first, Joined(tail, rest));
    == { JoinedAssociative(first, tail, rest); }
      Joined(Joined(first, tail), rest);
    == { FlattenWeeksCons(a); }
      Joined(FlattenWeeks(a), rest);
    }
  }

  lemma AppendSplitsAtHead(a: seq<Json>, b: seq<Json>)
    requires |a| > 0
    ensures (a + b)[0] == a[0] && (a + b)[1..] == a[1..] + b
  {
  }

  lemma JoinedAssociative(x: Option<seq<Json>>, y: Option<seq<Json>>, z: Option<seq<Json>>)
    ensures Joined(x, Joined(y, z)) == Joined(Joined(x, y), z)
  {
    if x.Some? && y.Some? && z.Some? {
      assert x.value + (y.value + z.value) == (x.value + y.value) + z.value;
    }
  }

  /** One step of the flattening loop. */
  lemma FlattenWeeksCons(weeks: seq<Json>)
    requires |weeks| > 0
    ensures FlattenWeeks(weeks) == Joined(DayItems(weeks[0]), FlattenWeeks(weeks[1..]))
  {
  }

  /** A single week contributes exactly its own day list. */
  lemma FlattenOneWeek(w: Json)
    ensures FlattenWeeks([w]) == DayItems(w)
  {
    assert [w][1..] == [];
    if DayItems(w).Some? {
      assert DayItems(w).value + [] == DayItems(w).value;
    }
  }

  /** The day records of the response, week after week, before sorting. */
  function DayRecords(data: Json): Option<seq<Json>> {
    var cal :- CalendarObject(data);
    var weeksValue :- Lookup(cal, "weeks");
    var weeks :- Elements(weeksValue);
    FlattenWeeks(weeks)
  }

  /** The shape `calculate_streaks` relies on: the calendar path, its total and weeks
      members, a `contributionDays` list in every week, and every day
      acceptable to `DayOk`. */
  predicate WellFormed(data: Json) {
    && CalendarObject(data).Some?
    && Lookup(CalendarObject(data).value, "totalContributions").Some?
    && Lookup(CalendarObject(data).value, "weeks").Some?
    && Elements(Lookup(CalendarObject(data).value, "weeks").value).Some?
    && WeeksOk(Elements(Lookup(CalendarObject(data).value, "weeks").value).value)
  }

  /** Every week has a `contributionDays` list, and every day in those lists
      is acceptable to `DayOk`. */
  predicate WeeksOk(weeks: seq<Json>) {
    && (forall w :: w in weeks ==> DayItems(w).Some?)
    && (forall w, j :: w in weeks && DayItems(w).Some? && j in DayItems(w).value ==> DayOk(j))
  }

  /** The declared `totalContributions` of a response that has one. */
  function DeclaredTotal(data: Json): Option<Json> {
    var cal :- CalendarObject(data);
    Lookup(cal, "totalContributions")
  }

  /** The opening of `calculate_streaks`: read the total and flatten the weeks, with
      each day checked as the later steps would check it. */
  function ParseCalendar(data: Json): (r: Option<Calendar>)
    ensures r.Some? ==> Some(r.value.total) == DeclaredTotal(data)
    ensures r.Some? ==> forall i :: 0 <= i < |r.value.days| ==> Dated(r.value.days[i])
    ensures r.Some? ==> && DayRecords(data).Some?
                        && |r.value.days| == |DayRecords(data).value|
                        && forall i :: 0 <= i < |r.value.days| ==> RecordOf(DayRecords(data).value[i], r.value.days[i])
  {
    var cal :- CalendarObject(data);
    var total :- Lookup(cal, "totalContributions");
    var weeksValue :- Lookup(cal, "weeks");
    var weeks :- Elements(weeksValue);
    var items :- FlattenWeeks(weeks);
    var days :- ParseDays(items);
    assert forall i :: 0 <= i < |days| ==> Dated(days[i]) && RecordOf(items[i], days[i]) by {
      forall i | 0 <= i < |days| ensures Dated(days[i]) && RecordOf(items[i], days[i]) {
        ParseDayMeaning(items[i]);
      }
    }
    Some(Calendar(total, days))
  }

  /** The calendar is extracted exactly when the response has the shape the
      calculation relies on; every other response is the error path. */
  lemma ParsesIffWellFormed(data: Json)
    ensures ParseCalendar(data).Some? <==> WellFormed(data)
  {
    var cal := CalendarObject(data);
    if cal.Some? && Lookup(cal.value, "totalContributions").Some? && Lookup(cal.value, "weeks").Some?
       && Elements(Lookup(cal.value, "weeks").value).Some? {
      WeeksParseIffOk(Elements(Lookup(cal.value, "weeks").value).value);
    }
  }

  /** The weeks flatten and every day parses exactly when `WeeksOk` holds. */
  lemma WeeksParseIffOk(weeks: seq<Json>)
    ensures (FlattenWeeks(weeks).Some? && ParseDays(FlattenWeeks(weeks).value).Some?) <==> WeeksOk(weeks)
  {
    if FlattenWeeks(weeks).Some? {
      DayItemsAllOk(weeks, FlattenWeeks(weeks).value);
    }
  }

  lemma DayItemsAllOk(weeks: seq<Json>, items: seq<Json>)
    requires FlattenWeeks(weeks) == Some(items)
    ensures (forall i :: 0 <= i < |items| ==> DayOk(items[i])) <==>
            (forall w, j :: w in weeks && DayItems(w).Some? && j in DayItems(w).value ==> DayOk(j))
  {
    FlattenWeeksMembers(weeks);
    if forall i :: 0 <= i < |items| ==> DayOk(items[i]) {
      forall w, j | w in weeks && DayItems(w).Some? && j in DayItems(w).value ensures DayOk(j) {
        assert j in items;
      }
    }
    if forall w, j :: w in weeks && DayItems(w).Some? && j in DayItems(w).value ==> DayOk(j) {
      forall i | 0 <= i < |items| ensures DayOk(items[i]) {
        assert items[i] in items;
      }
    }
  }

  // ---------------------------------------------------------------------
  // Stable sorting of the days by their date text

  predicate SortedByDate(days: seq<Day>) {
    forall i :: 0 < i < |days| ==> LexLe(days[i - 1].date, days[i].date)
  }

  /** Ordinals never decrease along the sequence. */
  predicate Chronological(days: seq<Day>) {
    forall i, j :: 0 <= i < j < |days| ==> days[i].ordinal <= days[j].ordinal
  }

  /** The days carrying date text `k`, in their order. */
  function OnDate(days: seq<Day>, k: string): seq<Day> {
    if |days| == 0 then []
    else (if days[0].date == k then [days[0]] else []) + OnDate(days[1..], k)
  }

  /** Places `x` before the first element whose date is not smaller, so that
      it stays ahead of the days with the same date. */
  function Insert(x: Day, ys: seq<Day>): (r: seq<Day>)
    ensures |r| == |ys| + 1
    ensures r[0] == x || (|ys| > 0 && r[0] == ys[0])
    decreases |ys|
  {
    if |ys| == 0 || LexLe(x.date, ys[0].date) then [x] + ys
    else [ys[0]] + Insert(x, ys[1..])
  }

  /** Insertion adds `x` and loses nothing. */
  lemma {:induction false} InsertPermutes(x: Day, ys: seq<Day>)
    ensures multiset(Insert(x, ys)) == multiset{x} + multiset(ys)
    decreases |ys|
  {
    if |ys| > 0 && !LexLe(x.date, ys[0].date) {
      InsertPermutes(x, ys[1..]);
      assert ys == [ys[0]] + ys[1..];
    }
  }

  /** Insertion into date order keeps date order. */
  lemma {:induction false} InsertKeepsSorted(x: Day, ys: seq<Day>)
    requires SortedByDate(ys)
    ensures SortedByDate(Insert(x, ys))
    decreases |ys|
  {
    if |ys| > 0 && !LexLe(x.date, ys[0].date) {
      LexLeTotal(x.date, ys[0].date);
      var tail := ys[1..];
      assert SortedByDate(tail) by {
        forall i | 0 < i < |tail| ensures LexLe(tail[i - 1].date, tail[i].date) {
          assert tail[i - 1] == ys[i] && tail[i] == ys[i + 1];
        }
      }
      InsertKeepsSorted(x, tail);
      var rest := Insert(x, tail);
      var r := [ys[0]] + rest;
      forall i | 0 < i < |r| ensures LexLe(r[i - 1].date, r[i].date) {
        if i > 1 {
          assert r[i - 1] == rest[i - 2] && r[i] == rest[i - 1];
        }
      }
    }
  }

  /** A stable sort by date text, as Python's `list.sort` with a key is. */
  function SortByDate(days: seq<Day>): (r: seq<Day>)
    ensures SortedByDate(r)
    ensures multiset(r) == multiset(days)
    ensures |r| == |days|
    decreases |days|
  {
    if |days| == 0 then []
    else
      var rest := SortByDate(days[1..]);
      InsertKeepsSorted(days[0], rest);
      InsertPermutes(days[0], rest);
      assert days == [days[0]] + days[1..];
      Insert(days[0], rest)
  }

  lemma OnDateCons(d: Day, s: seq<Day>, k: string)
    ensures OnDate([d] + s, k) == (if d.date == k then [d] else []) + OnDate(s, k)
  {
    assert ([d] + s)[0] == d;
    assert ([d] + s)[1..] == s;
  }

  lemma {:induction false} InsertOnDate(x: Day, ys: seq<Day>, k: string)
    ensures OnDate(Insert(x, ys), k) == (if x.date == k then [x] else []) + OnDate(ys, k)
    decreases |ys|
  {
    if |ys| == 0 || LexLe(x.date, ys[0].date) {
      OnDateCons(x, ys, k);
    } else {
      LexLeReflexive(x.date);
      var rest := Insert(x, ys[1..]);
      assert Insert(x, ys) == [ys[0]] + rest;
      InsertOnDate(x, ys[1..], k);
      OnDateCons(ys[0], rest, k);
      assert ys == [ys[0]] + ys[1..];
      OnDateCons(ys[0], ys[1..], k);
      if x.date == k {
        assert ys[0].date != k;
      }
    }
  }

  /** Stability: the days sharing one date keep their relative order. */
  lemma {:induction false} SortIsStable(days: seq<Day>, k: string)
    ensures OnDate(SortByDate(days), k) == OnDate(days, k)
    decreases |days|
  {
    if |days| > 0 {
      InsertOnDate(days[0], SortByDate(days[1..]), k);
      SortIsStable(days[1..], k);
    }
  }

  /** Two dated days in text order are in calendar order. */
  lemma DatedInOrder(a: Day, b: Day)
    requires Dated(a) && Dated(b) && LexLe(a.date, b.date)
    ensures a.ordinal <= b.ordinal
  {
    TextOrderIsChronological(a.date, b.date);
  }

  /** Ordinals that never decrease between neighbours never decrease at all. */
  lemma {:induction false} AdjacentOrderIsChronological(days: seq<Day>)
    requires forall i :: 0 < i < |days| ==> days[i - 1].ordinal <= days[i].ordinal
    ensures Chronological(days)
    decreases |days|
  {
    if |days| > 1 {
      var init := days[..|days| - 1];
      var n := |days| - 1;
      assert forall i :: 0 < i < |init| ==> init[i - 1].ordinal <= init[i].ordinal by {
        forall i | 0 < i < |init| ensures init[i - 1].ordinal <= init[i].ordinal {
          assert init[i - 1] == days[i - 1] && init[i] == days[i];
        }
      }
      AdjacentOrderIsChronological(init);
      forall i, j | 0 <= i < j < |days| ensures days[i].ordinal <= days[j].ordinal {
        if j < n {
          assert init[i] == days[i] && init[j] == days[j];
        } else if i < n - 1 {
          assert init[i] == days[i] && init[n - 1] == days[n - 1];
        }
      }
    }
  }

  /** Sorted canonical date text is sorted by ordinal. */
  lemma SortedByDateIsChronological(days: seq<Day>)
    requires forall i :: 0 <= i < |days| ==> Dated(days[i])
    requires SortedByDate(days)
    ensures Chronological(days)
  {
    forall i | 0 < i < |days| ensures days[i - 1].ordinal <= days[i].ordinal {
      DatedInOrder(days[i - 1], days[i]);
    }
    AdjacentOrderIsChronological(days);
  }
}
