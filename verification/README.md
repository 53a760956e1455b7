# Contribution streaks — a Dafny model

This project models the statistics core of a GitHub contribution-streak card
generator. The core takes the contribution calendar returned by GitHub's
GraphQL API. It reports five values:

- the **current streak**: the number of consecutive entries with
  contributions that reach today or yesterday (their dates are not compared
  with each other);
- the **longest streak**: the longest run of consecutive active days anywhere
  in the calendar;
- the declared **total contributions**, passed through unchanged;
- the first and last date of the current streak.

It also models the label helpers that the card renderer applies to those
values:

- the `"Mar 05"` date label;
- the `"<start> - Present"` / `"No active streak"` caption;
- the thousands separators on the total.

The model follows the code, one module per concern:

| module | file | what it holds |
|---|---|---|
| `Wrappers` | wrappers.dfy | `Option`, the failure carrier |
| `JsonValues` | json.dfy | decoded JSON values. A lookup returns the last value stored under a repeated member name. Iteration gives an array's items, an object's distinct member names (each once, as a decoded dictionary holds them) and a string's characters. |
| `Lexical` | lexical.dfy | the ordering of date strings used by the sort |
| `Dates` | dates.dfy | proleptic Gregorian dates and the strict `YYYY-MM-DD` parser with its inverse. Day ordinals stand in for date subtraction. |
| `Calendar` | calendar.dfy | walking the response and flattening the weeks; the stable sort by date text |
| `Streaks` | streaks.dfy | the backward scan for the current streak and the forward scan for the longest one |
| `Stats` | stats.dfy | the complete statistics call, including its catch-all failure result |
| `Labels` | labels.dfy | the date label, the streak caption and digit grouping |
| `Scenarios` | scenarios.dfy | worked calendars for March 2024 |

Failure is all-or-nothing. The forward scan reads the date and the count of
every day, so any malformed day anywhere produces the zero result
`(0, 0, 0, "", "")`. So does a missing key, or a structure of the wrong
shape. `Calendar.WellFormed` states that condition declaratively, and
`Calendar.ParsesIffWellFormed` proves that the parser accepts exactly those
responses.

The clock is a parameter. `today` is the day ordinal of the local date, and
the ordinal of 0001-01-01 is 1.

## Model

| member | source | states |
|---|---|---|
| JsonValues.Lookup | streak_stats.py:79-81 | a subscript succeeds exactly on an object that has the key, and yields the value of the last member with that name |
| JsonValues.NamesAreDistinctKeys | streak_stats.py:85-86 | the member names an object yields are exactly the names a subscript accepts, with no name repeated |
| JsonValues.ObjectIteration | streak_stats.py:85-86 | iterating an object succeeds, yields only strings, at most one per member, and they are exactly its subscriptable keys |
| Lexical.LexLeTotal | streak_stats.py:89 | any two date strings are comparable |
| Lexical.LexLeTransitive | streak_stats.py:89 | the string order is transitive |
| Lexical.LexLeAntisymmetric | streak_stats.py:89 | two strings each ordered before the other are equal, so with totality the sort key is a total order |
| Dates.FormatParseRoundTrip | streak_stats.py:100 | every valid date has a text form that parses back to it |
| Dates.ParseFormatRoundTrip | streak_stats.py:100 | every accepted text is exactly the canonical form of the date it denotes |
| Dates.OrdinalIncreasing | streak_stats.py:103 | a calendar-earlier date has a smaller day ordinal, so ordinal differences are date differences |
| Dates.OrdinalInjective | streak_stats.py:135 | distinct dates have distinct ordinals, so a difference of one day means the next calendar day |
| Dates.TextOrderIsChronological | streak_stats.py:89-100 | for parseable dates, string order coincides with calendar order |
| Calendar.ParseDayMeaning | streak_stats.py:100-104 | a day is accepted exactly when its date text parses and its count is comparable with 0; the parsed day keeps the text stored under "date" and the count stored under "contributionCount" |
| Calendar.FlattenWeeks | streak_stats.py:84-86 | flattening succeeds exactly when every week has a day list |
| Calendar.FlattenWeeksMembers | streak_stats.py:84-86 | a record is among the flattened days exactly when one of the weeks lists it |
| Calendar.FlattenWeeksAppend | streak_stats.py:84-86 | flattening two consecutive parts of the week list gives the days of the first part followed by those of the second, each listed as often as the weeks list it |
| Calendar.FlattenOneWeek | streak_stats.py:85-86 | a single week contributes exactly its own day list, in its order |
| Calendar.ParseCalendar | streak_stats.py:79-104 | a parsed calendar keeps the declared total and has one day per day record of the response, in the same order, each with that record's date text, its date's ordinal and its count |
| Calendar.ParsesIffWellFormed | streak_stats.py:78-86 | the response is accepted if and only if it satisfies the declarative well-formedness condition |
| Calendar.WeeksParseIffOk | streak_stats.py:84-86 | the weeks flatten and all their days parse exactly when every week has a day list and every listed day is acceptable |
| Calendar.InsertPermutes | streak_stats.py:89 | insertion adds exactly the new element and loses none (as a multiset) |
| Calendar.InsertKeepsSorted | streak_stats.py:89 | insertion into a date-sorted list keeps it sorted |
| Calendar.SortByDate | streak_stats.py:89 | the sorted list is a permutation of the input in non-decreasing date-text order |
| Calendar.SortIsStable | streak_stats.py:89 | entries that share a date keep their original relative order |
| Calendar.SortedByDateIsChronological | streak_stats.py:89-100 | once sorted by text, the days are in calendar order |
| Streaks.ScanBack | streak_stats.py:98-121 | the backward scan only extends the streak it was given, by at most one per visited day, and never moves the end of a streak already started |
| Streaks.ScanBackSources | streak_stats.py:104-118 | a streak the scan extends starts on the date of a day with contributions, and a streak the scan starts ends on a positive day of today or yesterday (that every day in between has contributions is `Streaks.CurrentStreakIsBlockAtLastActive`) |
| Streaks.CurrentStreak | streak_stats.py:92-121 | the streak is no longer than the calendar; an empty streak carries no dates; a non-empty one starts on a day with contributions and ends on an active day of today or yesterday |
| Streaks.CurrentStreakIsBlockAtLastActive | streak_stats.py:98-121 | on a sorted calendar, the current streak is the block of positive entries ending at the last active day of today or yesterday, with that block's first and last dates |
| Streaks.CurrentStreakNeedsActiveDay | streak_stats.py:103-116 | without a positive entry for today or yesterday there is no current streak |
| Streaks.FutureDaysAreIgnored | streak_stats.py:103-112 | entries dated after today never change the current streak |
| Streaks.CurrentStreakEmptyIff | streak_stats.py:105-108 | the streak is zero exactly when it has neither a start nor an end date |
| Streaks.CurrentStreakBounds | streak_stats.py:105-118 | on a sorted calendar, a current streak starts no later than it ends and ends today or yesterday |
| Streaks.BlockStart | streak_stats.py:113-121 | every positive day lies in a maximal block of positive days |
| Streaks.RunStopsAtZero | streak_stats.py:147-150 | a run of consecutive active days cannot cross a zero day |
| Streaks.StepKeepsOpenRun | streak_stats.py:134-150 | one step of the forward scan keeps the open run ending at the last day when that day is positive, no shorter than any streak ending there, and empties it on a zero day |
| Streaks.StepKeepsInv | streak_stats.py:134-150 | one step of the forward scan keeps its invariant: the open run ends at the last positive day, and the longest run seen so far is recorded |
| Streaks.TallyInvHolds | streak_stats.py:130-150 | the forward-scan invariant holds after every prefix of the calendar |
| Streaks.LongestStreak | streak_stats.py:123-150 | the result is the length of the longest run of positive days one calendar day apart; it is zero exactly when no day is positive |
| Streaks.LongestCoversCurrent | streak_stats.py:98-150 | on a calendar without missing or repeated dates, the longest streak is at least the current one |
| Streaks.CurrentCanExceedLongestAcrossGap | streak_stats.py:112-118 | across a missing date the backward scan keeps counting while the forward scan restarts, so on two valid dates the current streak can exceed the longest |
| Stats.SortedDays | streak_stats.py:89 | the days handed to both scans are a permutation of the flattened days, in calendar order |
| Stats.CurrentStreakDatesEmptyIff | streak_stats.py:152-157 | on dated days the reported start and end are empty exactly when the streak is zero |
| Stats.CurrentStreakDates | streak_stats.py:105-118 | on sorted dated days a current streak's start and end are valid dates in order, the end today or yesterday |
| Stats.StatsOf | streak_stats.py:89-158 | the declared total passes through; both streaks are bounded by the number of days; a zero current streak comes with empty dates, and a non-zero one with ordered dates ending today or yesterday |
| Stats.CalculateStreaks | streak_stats.py:73-161 | a malformed response yields exactly the zero result; a well-formed one reports its declared total, both streaks bounded by the number of day records in the response, and current-streak dates that are empty exactly when the streak is zero, and otherwise valid, ordered and ending today or yesterday |
| Stats.EmptyResponseGivesZero | streak_stats.py:78-79 | the empty response produced by a failed fetch yields the zero result |
| Stats.OneBadDateZeroesEverything | streak_stats.py:131-132 | a single unparseable date anywhere in the calendar turns the whole result into the zero result |
| Stats.CurrentStreakOfResponse | streak_stats.py:98-121 | end to end: the reported current streak is the positive block ending at the last active day, with its first and last dates |
| Stats.NoCurrentStreakWithoutActiveDay | streak_stats.py:103-116 | end to end: without a positive day for today or yesterday, the current streak is zero |
| Stats.LongestStreakOfResponse | streak_stats.py:130-150 | end to end: the reported longest streak is the longest run in the sorted calendar |
| Stats.LongestCoversCurrentOnGapFreeResponse | streak_stats.py:98-150 | end to end: with no missing or repeated dates, the longest streak is at least the current one |
| Stats.DateRangeTracksCurrentStreak | streak_stats.py:213-215 | the card says "No active streak" exactly when the current streak is zero |
| Labels.MonthAbbrevInjective | streak_stats.py:185 | distinct months get distinct three-letter abbreviations |
| Labels.FormatDate | streak_stats.py:179-187 | empty text gives "N/A"; text that does not parse comes back unchanged; a date gives its month abbreviation, a space, and the two-digit day |
| Labels.LabelDropsOnlyYear | streak_stats.py:184-185 | two dates get the same label exactly when they differ at most in the year |
| Labels.DateRange | streak_stats.py:215 | the caption is "No active streak" exactly when the start date is empty or "N/A", and otherwise the start's label followed by " - Present" |
| Labels.CaptionShowsMonthAndDay | streak_stats.py:215 | two valid start dates give the same caption exactly when they differ at most in the year |
| Labels.DecimalRoundTrip | streak_stats.py:247 | the decimal digits of a number read back as that number |
| Labels.GroupShape | streak_stats.py:247 | grouping puts commas exactly at every fourth position from the right, and digits everywhere else |
| Labels.UngroupGroup | streak_stats.py:247 | removing the commas from a grouped number gives back its digits |
| Labels.GroupThousandsRoundTrip | streak_stats.py:247 | the rendered total starts with '-' exactly for negative totals, its magnitude starts with a digit, has commas exactly every fourth position from the right, and without commas spells the magnitude |
| Scenarios.MarchFromIsDated | streak_stats.py:100-104 | every scenario day carries a valid date text and that date's ordinal, as the parser produces them |
| Scenarios.FiveDaysUpToToday | streak_stats.py:98-150 | five active days ending today give a current and a longest streak of 5, with their dates |
| Scenarios.StaleRun | streak_stats.py:109-121 | an old run followed by zero days gives no current streak but keeps the longest |
| Scenarios.AllZero | streak_stats.py:104-149 | a calendar without contributions gives two zero streaks |
| Scenarios.TwoRunsApart | streak_stats.py:134-150 | of two runs separated by a zero day, the longer one is reported |
| Scenarios.YesterdayAnchorsStreak | streak_stats.py:103-111 | with today at zero, the streak counts from yesterday backwards |

## Left out

- Fetching the calendar (`get_contribution_calendar`, streak_stats.py:21-71) is network I/O. The model starts from the decoded JSON value; a failed fetch is the empty object.
- `get_stats` (streak_stats.py:163-176) only renames the five results into a dictionary and is not modelled separately.
- The SVG markup of `generate_svg` is not modelled. The only parts modelled are the caption (line 215) and the thousands grouping of the total (line 247). `main` and the file output are not modelled either.
- The diagnostic `print` in the failure path has no effect on the result and is omitted.
- The clock is not modelled: `datetime.now().date()` becomes the `today` parameter, a day ordinal of the local date.
- Stats.CalculateStreaks: requires `today > 1`. When today is 0001-01-01, the expression `today - timedelta(days=1)` raises `OverflowError` as soon as the backward scan visits an entry dated after today. The catch-all then returns the zero result. That single date is excluded rather than modelled.
- JsonValues.ObjectIteration: does not state that the names come in the order of their first occurrence, although `Names` builds them in that order. No modelled result depends on it: a non-empty object in place of a list always fails at the next subscript.
- The month names of `%b` are the English abbreviations of the C locale. Other locales are not modelled.
- JSON floating-point numbers are not modelled. Counts are integers or booleans, and a boolean compares as 0 or 1. Any other count type is a comparison error, which yields the zero result. The total is passed through whatever its JSON type, `null` included.
- Dates.ParseDate: accepts only the canonical zero-padded `YYYY-MM-DD` form. The platform's parser also accepts unpadded fields and some non-ASCII digits. A calendar from GitHub always uses the canonical form.
- The `longest_start` and `longest_end` values are computed by the forward scan but never returned, so the model does not keep them.
- Labels.GroupThousands: models integer totals only. Formatting a non-numeric total raises in the renderer, which is outside the modelled core.
- Repeated calls on the same input give the same result because every member is a pure function of the response and `today`. No separate lemma states this.

## Notes on the code's behaviour

- The longest streak is guaranteed to be at least the current streak when the sorted calendar has no missing or repeated dates (`Streaks.LongestCoversCurrent`). Across a gap it can be smaller (`Streaks.CurrentCanExceedLongestAcrossGap`). The two scans disagree about gaps. The backward scan never compares neighbouring dates. The forward scan restarts its count when two positive days are not one calendar day apart. `Streaks.CurrentCanExceedLongestAcrossGap` exhibits a calendar of two valid dates whose current streak is 2 and longest streak is 1. The GitHub calendar is contiguous, so this does not arise in practice. The model keeps the code's behaviour and states the general property only under the gap-free hypothesis.
- The forward scan compares each positive day with the previous *positive* day. A zero day resets the open run but does not update that date. The model follows the code.
- Inside the window of today and yesterday, a zero entry is passed over while no streak has started yet. So a zero for today followed by activity yesterday still yields a streak ending yesterday (`Scenarios.YesterdayAnchorsStreak`).
