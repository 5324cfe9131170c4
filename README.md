# Onyx: the logical-day archive, its statistics and the dashboard helpers

Onyx is a personal time log. The user records activities with a description
and a start and end time. The front page shows the entries of the current
*logical day*, which starts at 06:00, so anything recorded before six in the
morning belongs to the day before. Entries move into history in two ways:
- automatically, when the front page is opened on a later logical day (each
  entry is filed under its own day);
- by "end day", which files every active entry under today and clears the
  quick note.

The history page groups archived entries by archive date.

Beside the store, the project models these parts of the system:
- the daily check-in streak (services/streak.py), which stores its dates as
  `YYYY-MM-DD` text;
- the duration and day statistics (services/history_helper.py,
  services/stats.py): parsing `HH:MM` and `HH:MM:SS` texts, wrapping past
  midnight, per-category totals, the focus percentage and the top category;
- the Pomodoro timer shared by static/scripts/dashboard.js and
  static/scripts/pomodoro.js: work and break phases, one-second ticks,
  pause/resume, and a long break after every fourth work phase;
- the small front-end helpers: the `HH:MM` and `Xh YYm` texts, the two
  `hexToRgba` variants, the chart-label classifier, and the Fisher–Yates
  palette of static/scripts/chart_theme.js;
- the audit prompt builder (services/prompts.py): persona by tone and default
  texts for blank notes.

The modules follow the source files:

- `Calendar`: proleptic Gregorian dates and Python's day numbers. It covers
  `toordinal`, the day before, `str(date)`, and `strptime` with `%Y-%m-%d`.
- `Clock`: times of day, and `strptime` with `%H:%M` and `%H:%M:%S`.
- `Text`: digits, padding, `strip`, `lower`, substring tests.
- `Records`: `get_logical_date` and the `Expenses` row.
- `Query`: `filter_by` and `order_by`.
- `App`: the `User` row and the `Store` class holding the table. Its methods
  are `Create`, `Index` (the sweep), `EndDay`, `History`, `Delete` and
  `SaveNotes`.
- `Streak`: `update_user_streak`, both as a class method that updates the
  user in place and as the state function `Step` that specifies it.
- `HistoryHelper`: `calculate_duration_minutes` and `build_day_stats`.
- `Stats`: services/stats.py.
- `Pomodoro`: the timer as a `Timer` class with the scripts' four state
  variables, specified by functions on a `State` value.
- `Dashboard`: `formatTime`, `formatDuration`, the label classifier and
  `_getKey`.
- `HexColor`: both `hexToRgba` variants.
- `ChartTheme`: `getRandomPalette`, where the in-place shuffle runs on an
  array.
- `Prompts`: `get_audit_prompt`.

Durations are kept in whole seconds (services/history_helper.py) or whole
minutes (services/stats.py). The clock (`datetime.now`, `new Date`) and
`Math.random` are parameters of the operations that use them.

## Model

| member | source | states |
|---|---|---|
| Records.LogicalDate | app.py:26-33 | a time before 06:00 gets the day whose day number is one less than its calendar day; a time from 06:00 on gets its own calendar day |
| Records.LogicalDateExamples | app.py:26-33 | 30 Jan 03:00 and 05:59:59 map to 29 Jan and 06:00 stays 30 Jan; early 1 March maps to 29 Feb in a leap year and to 28 Feb otherwise; early 1 January maps to 31 December |
| Records.LogicalDateBounds | app.py:31-33 | the logical day is never after the calendar day, is at most one day before it, and equals it exactly when the hour is 6 or later |
| Calendar.PreviousDay | app.py:32 | subtracting one day gives a valid date strictly before the given one |
| Calendar.PreviousDayOrdinal | app.py:32 | the day before has a day number one less |
| Calendar.BeforeIffOrdinalLess | app.py:114 | Python's date comparison agrees with comparing day numbers, in both directions |
| Calendar.OrdinalInjective | services/streak.py:49 | two dates have a day difference of zero exactly when they are the same date |
| Calendar.IsoFormat | services/streak.py:26 | `str(date)` is ten characters with dashes at positions 4 and 7 |
| Calendar.ParseIsoDate | services/streak.py:11 | `strptime(…, "%Y-%m-%d")` only ever yields a real calendar date |
| Calendar.IsoRoundTrip | services/streak.py:26-32 | parsing `str(d)` with `%Y-%m-%d` gives back `d` |
| App.User.constructor | app.py:36-42 | a new user has an empty quick note and an empty notebook |
| App.Store.constructor | app.py:44-55 | the table starts empty |
| App.Store.Create | app.py:75-96 | a missing field fails the commit and stores nothing; otherwise exactly one active entry is appended, with a fresh id, the form values, the user as owner, and the request's logical date as archive date |
| App.Store.Index | app.py:102-123 | the table becomes the swept table; a commit happens exactly when the sweep changed something; the page is the user's active entries, newest first |
| App.SweepRows | app.py:106-120 | the loop leaves each row swept by the one-entry rule, keeps ids and well-formedness, and sets the flag exactly when some row changed |
| App.SweepLeavesNoStaleEntry | app.py:109-117 | after the sweep, no active entry of the user belongs to a logical day before today |
| App.SweepChanges | app.py:109-117 | other users' entries and archived entries are untouched; every changed entry was archived, stamped with its own logical day, which is before today |
| App.SweepIdempotent | app.py:109-117 | a second sweep with the same today archives nothing |
| App.SweepAllKeeps | app.py:109-117 | the sweep changes no id and keeps entries well formed |
| App.Store.EndDay | app.py:129-145 | the table becomes the ended table; the quick note becomes "" and the notebook is unchanged |
| App.EndAllArchivesEverything | app.py:131-138 | afterwards no entry of the user is active; each previously active entry of the user is archived under today; every other entry is unchanged |
| App.EndAllKeeps | app.py:135-138 | ending the day changes no id and keeps entries well formed |
| App.SweepStampBeforeEndStamp | app.py:111-138 | an entry the sweep would archive is stamped with its own day, strictly earlier than the today that end-of-day would stamp |
| App.StampsDivergeExample | app.py:111-138 | a 29 January entry seen on 30 January is filed under the 29th by the sweep and under the 30th by end-of-day |
| App.Store.History | app.py:149-162 | the groups, read in order, are the user's archived entries sorted by archive date and then timestamp, both descending, each exactly once; each group is non-empty, has a single date and is newest first; the group dates strictly decrease |
| App.GroupByArchiveDate | app.py:158-160 | the grouping loop leaves the grouping invariant holding over all rows |
| App.GrowLastGroup | app.py:159-160 | a row with the last group's date joins that group and keeps the invariant |
| App.StartGroup | app.py:159-160 | a row with a new date opens a new group and keeps the invariant |
| App.HistoryGroups | app.py:152-160 | once every sorted archived row is placed, the groups cover them exactly once, one group per date, dates descending |
| App.HistoryMembers | app.py:152 | every entry on the history page is an archived entry of the user |
| App.Store.Delete | app.py:167-179 | an unknown id gives NotFound; another user's entry gives Unauthorized, and in both cases the table is unchanged; the owner's entry alone is removed, and the result says whether it was archived (the redirect target) |
| App.IndexOfId | app.py:168 | the lookup finds a row with that id, or reports that no row has it |
| App.Store.SaveNotes | app.py:246-257 | type 'quick_note' writes only the quick note; any other type writes only the notebook; the reply carries the save time |
| Query.Select | app.py:106 | the selection holds exactly the table's entries with that owner and archived flag, each at most as often as in the table |
| Query.Sort | app.py:123 | `order_by` is a permutation of its input |
| Query.SortSorted | app.py:123 | `order_by` output is sorted in the requested order |
| Query.InsertSorted | app.py:152 | inserting into a sorted sequence keeps it sorted |
| Query.PrecedesTransitive | app.py:152 | the ordering by archive date then timestamp (and by timestamp alone) is transitive |
| Streak.Step | services/streak.py:4-63 | only a call that returns True writes; every write stores a text and sets the streak to 1 or the old streak plus one; the rows below state each case |
| Streak.UpdateUserStreak | services/streak.py:4-63 | the returned outcome and the user's new streak and check-in equal `Step` of the old state and the input |
| Streak.CheckInSameDay | services/streak.py:49-53 | a delta of 0 days returns False and changes nothing |
| Streak.CheckInNextDay | services/streak.py:54-63 | a delta of 1 day increments the streak, stores today as text and returns True |
| Streak.CheckInAfterGap | services/streak.py:57-63 | any other delta, later or earlier, restarts the streak at 1 with today stored and returns True |
| Streak.UnknownInputIgnored | services/streak.py:17-18 | an input that is neither a string nor a date returns False with no change |
| Streak.DateTimeTruncated | services/streak.py:12-16 | a datetime input behaves exactly as its date |
| Streak.IsoInputIsDate | services/streak.py:10-11 | a `YYYY-MM-DD` input behaves exactly as the date it names |
| Streak.UnreadableInputRaises | services/streak.py:11 | an input string that does not parse raises ValueError before any change |
| Streak.FirstCheckIn | services/streak.py:23-27 | with no stored check-in (None or empty), the streak becomes 1 with today stored, returning True |
| Streak.CorruptStoredValueRestarts | services/streak.py:30-46 | an unparseable stored string, or a stored value of unknown type, restarts the streak at 1 and returns True |
| Streak.DeltaRule | services/streak.py:49-63 | for a stored `YYYY-MM-DD` day, all three delta cases at once: 0 keeps everything, 1 adds one, anything else restarts |
| Streak.SameDayIsNoChange | services/streak.py:38-53 | today stored as text or as a date object: another check-in today is a no-op |
| Streak.StoredAsIsoText | services/streak.py:21-63 | whenever the service writes, it writes today as `YYYY-MM-DD` text that reads back as today, and the streak is 1 or the old streak plus one |
| Streak.ThreeDaysInARow | services/streak.py:23-63 | three consecutive days from no check-in give a streak of 3, and a repeat on the third day keeps it |
| Streak.GapRestarts | services/streak.py:57-59 | missing a day resets the streak to 1 |
| Streak.User.constructor | services/streak.py:4 | the user object holds the given streak and stored check-in |
| HistoryHelper.FirstParse | services/history_helper.py:12-28 | a side reads exactly when `%H:%M` or `%H:%M:%S` accepts it, and yields a valid time of day |
| HistoryHelper.ParseWithFormats | services/history_helper.py:14-28 | the try/break loop over the formats yields the first format's reading |
| HistoryHelper.DurationSeconds | services/history_helper.py:4-37 | the duration always lies in [0, one day) |
| HistoryHelper.CalculateDuration | services/history_helper.py:4-37 | the method gives the modelled duration and warns exactly when a present side does not parse |
| HistoryHelper.RecordedDuration | services/history_helper.py:34-37 | two recorded `HH:MM` times are apart by (end − start) mod 1440 minutes, without a warning; so ("23:00","01:00") is 120, ("09:00","10:30") is 90 and equal times give 0 |
| HistoryHelper.ReadTimesDuration | services/history_helper.py:30-37 | two sides that parse give end minus start modulo a day, with no warning |
| HistoryHelper.MissingSideIsZero | services/history_helper.py:6-7 | a missing or empty side gives 0 without a warning |
| HistoryHelper.UnreadableSideIsZero | services/history_helper.py:30-32 | a present side that neither format reads gives 0, with the warning, and nothing is raised |
| HistoryHelper.CategoryOf | services/history_helper.py:48 | a non-empty category is kept, and a falsy one (None or "") becomes "Uncategorized" |
| HistoryHelper.BuildDayStats | services/history_helper.py:40-62 | the returned dictionary is `DayStatsOf(items)`, the one the items' durations and categories determine; the next four rows state what it holds |
| HistoryHelper.DayStatsParts | services/history_helper.py:51-62 | the total and the category dict (keys in insertion order) are those of the items' shares; the focus percentage is Deep Work's share of the total and the top category the dict's first largest key; `entry_count` is the number of items |
| HistoryHelper.DayStatsTotals | services/history_helper.py:42-62 | one entry per item; each category once; the category values add up to the total; the focus percentage lies in 0..100 |
| HistoryHelper.DayStatsCategories | services/history_helper.py:48-49 | the category dict's keys are exactly the items' categories, `Uncategorized` standing for a falsy one |
| HistoryHelper.DayStatsTop | services/history_helper.py:53 | the top category is "—" with no items and otherwise a key of the category dict |
| HistoryHelper.TallyItems | services/history_helper.py:42-49 | after the loop, `total_min` is the sum of the items' durations, and `category_min`, with keys in insertion order, maps each category to its summed durations, each key listed once |
| HistoryHelper.TallyItem | services/history_helper.py:46-49 | one item adds its duration to the total and to its category (`Uncategorized` when the category is falsy); a category not seen before joins the end of the key order |
| HistoryHelper.TallyStep | services/history_helper.py:45-49 | one more item adds its duration to the total and to its category's entry |
| HistoryHelper.AddValid | services/history_helper.py:49 | `d[k] = d.get(k, 0) + v` keeps the keys distinct and in step with the dict |
| HistoryHelper.SumAfterAdd | services/history_helper.py:49 | `d[k] = d.get(k, 0) + v` adds v to the sum of the values |
| HistoryHelper.TallyKeysAreCategories | services/history_helper.py:48-49 | the dict's keys are exactly the items' categories, including zero-minute ones |
| HistoryHelper.TallyIsPerCategory | services/history_helper.py:45-49 | each category's value is the sum of the durations of the items in it |
| HistoryHelper.TotalIsSumOfCategories | services/history_helper.py:45-58 | the total equals the sum of the category values |
| HistoryHelper.FocusInRange | services/history_helper.py:51-52 | Deep Work minutes lie between 0 and the total, so the percentage lies in 0..100 |
| HistoryHelper.DayFocusInRange | services/history_helper.py:40-52 | for any day's items, the focus percentage lies in 0..100 |
| HistoryHelper.FocusExample | services/history_helper.py:52 | 120 of 135 minutes is 88 percent |
| HistoryHelper.FirstMaxIndex | services/history_helper.py:53 | `max` picks a key of largest value, and no earlier key has that value |
| HistoryHelper.TopCategoryIsFirstMax | services/history_helper.py:53 | the top category is the first-inserted of those with the most minutes; with no items it is "—" |
| Stats.StatsLogicalDate | services/stats.py:3-7 | `get_logical_date` of the stats service gives a ten-character `YYYY-MM-DD` text; Stats.StatsLogicalDateAgrees states it is the ISO text of app.py's logical date |
| Stats.StatsLogicalDateAgrees | services/stats.py:3-7 | the service's logical date is the `YYYY-MM-DD` text of app.py's logical date, and reads back as it |
| Stats.ParseHourMinute | services/stats.py:20-21 | a time that parses as `%H:%M` is valid and has no seconds |
| Stats.LogMinutes | services/stats.py:20-26 | a counted log adds between 0 and 1439 minutes |
| Stats.CalculateStatsFromLogs | services/stats.py:9-34 | the loop's two accumulators are the total and deep minutes of the logs |
| Stats.DeepWithinTotal | services/stats.py:27-30 | deep minutes are never negative and never exceed the total |
| Stats.EmptyLogs | services/stats.py:14-15 | no logs give 0 and 0 |
| Stats.SkippedLogAddsNothing | services/stats.py:19-32 | a log that fails to parse contributes nothing to either total |
| Stats.SecondsAreSkipped | services/stats.py:20-21 | a time with seconds is not accepted, so such a log is skipped |
| Stats.RecordedLogMinutes | services/stats.py:20-26 | two recorded `HH:MM` times add (end − start) mod 1440 minutes |
| Stats.ReadLogMinutes | services/stats.py:23-26 | a log whose times parse adds end minus start, modulo a day |
| Stats.MissingDescOnlyInTotal | services/stats.py:27-32 | a log without a description adds to the total, raises on `.lower()`, and so adds nothing to the deep minutes |
| Stats.AnyKeywordIff | services/stats.py:29 | `any(k in text …)` holds exactly when some keyword is in the text |
| Stats.DeepIffKeywordOccurs | services/stats.py:16-30 | a description counts as deep exactly when, lower-cased, some keyword occurs in it |
| Clock.ParseClock | services/history_helper.py:12-28 | a parsed time is a valid time of day; `%H:%M` gives zero seconds |
| Clock.HourMinuteRoundTrip | services/stats.py:20-21 | `%H:%M` reads back every `HH:MM` text |
| Clock.SecondsDefeatHourMinute | services/history_helper.py:12-28 | a text with seconds fails `%H:%M` and is read by `%H:%M:%S` |
| Text.StripLeftDropsLeadingSpace | services/history_helper.py:9-10 | the left strip removes exactly the leading whitespace and keeps the rest as a suffix |
| Text.StripRightDropsTrailingSpace | services/history_helper.py:9-10 | the right strip removes exactly the trailing whitespace and keeps the rest as a prefix |
| Text.StripTrimmed | services/history_helper.py:9-10 | `strip` leaves no whitespace at either end |
| Text.StripUnpadded | services/history_helper.py:9-10 | a text with no whitespace at either end is its own `strip()` |
| Text.StripEmptyIffBlank | services/prompts.py:14-15 | a text strips to "" exactly when it is all whitespace |
| Text.Pad2IsPadStart | static/scripts/dashboard.js:18-22 | `padStart(2, '0')` of a number below 100 is its two-digit spelling |
| Text.ContainsIffOccurs | services/stats.py:29 | `in` on strings holds exactly when the needle occurs at some position |
| Dashboard.FormatTime | static/scripts/dashboard.js:18-22 | `formatTime` is the `%H:%M` spelling of the hour and minute; Dashboard.FormatTimeIsHourMinute states that it reads back |
| Dashboard.FormatTimeIsHourMinute | static/scripts/dashboard.js:18-22 | the clock text is five characters `HH:MM` and reads back as the hour and minute shown |
| Dashboard.JsRem | static/scripts/dashboard.js:26 | JavaScript's `%` keeps the dividend's sign and satisfies a = q·b + r with q truncated toward zero |
| Dashboard.FormatDuration | static/scripts/dashboard.js:24-28 | for n ≥ 0 `formatDuration` is the whole hours, "h ", the minutes below 60 as two digits and "m"; a negative count starts with '-' (Dashboard.FormatDurationParts, FormatDurationExample, FormatDurationNegative) |
| Dashboard.FormatDurationParts | static/scripts/dashboard.js:24-28 | for n ≥ 0 the text is floor(n/60), "h ", two-digit n mod 60, "m", and the two numbers give back n |
| Dashboard.FormatDurationExample | static/scripts/dashboard.js:24-28 | 135 is shown as "2h 15m" |
| Dashboard.FormatDurationNegative | static/scripts/dashboard.js:24-28 | −61 is shown as "-2h -1m" (floor for hours, truncated remainder for minutes) |
| Dashboard.ClassifyLabel | static/scripts/dashboard.js:295-303 | every label gets a key of the palette |
| Dashboard.GetKey | static/scripts/dashboard.js:161-163 | the key returned always has a palette colour |
| Dashboard.ClassifiedKeysHaveColours | static/scripts/dashboard.js:144-163 | a classified key is kept by `_getKey`; an unknown key falls back to 'other' and its colour |
| Dashboard.ClassifyIgnoresCase | static/scripts/dashboard.js:297 | letter case never changes a label's class |
| Dashboard.ClassifyOrder | static/scripts/dashboard.js:298-302 | "code" always wins, and a label is 'other' exactly when it contains no word of any of the four groups; the full precedence is Dashboard.ClassifyFirstMatchingGroup |
| Dashboard.GroupTests | static/scripts/dashboard.js:298-301 | each group of the word table is tested exactly by the chain's disjunction of `includes` calls |
| Dashboard.ClassifyFirstMatchingGroup | static/scripts/dashboard.js:296-301 | a label gets group g's key (coding, math, break, deepwork) exactly when its lower-cased text contains a word of g and no word of an earlier group, and 'other' exactly when no group matches |
| HexColor.DashboardHexToRgba | static/scripts/dashboard.js:30-39 | dashboard.js `hexToRgba` always gives an `rgba(…)` text; its channels and fallback are stated by HexColor.HexCodeRoundTrip, ShortCodeDoubles, CaseInsensitive and OtherLengthsRejected |
| HexColor.InsightHexToRgba | static/scripts/insight_modal.js:107-118 | insight_modal.js `hexToRgba` always gives an `rgba(…)` text, and it equals the dashboard's exactly when the code is accepted (the two fallbacks are spelled differently); HexColor.HelpersAgreeOnCodes gives both fallbacks |
| HexColor.ParseHexColor | static/scripts/dashboard.js:32-36 | a code is accepted exactly when it is '#' and three or six hex digits; the channels are bytes |
| HexColor.SixDigits | static/scripts/insight_modal.js:110-113 | the expanded code always has six hex digits |
| HexColor.Channels | static/scripts/insight_modal.js:114-115 | the shifted and masked channels are each in 0..255 |
| HexColor.ChannelsAreBytes | static/scripts/dashboard.js:35-36 | the channels are the high, middle and low bytes of the code |
| HexColor.ShortCodeDoubles | static/scripts/insight_modal.js:110-113 | `#xyz` gives the same output as `#xxyyzz`, in both helpers |
| HexColor.HexCodeRoundTrip | static/scripts/dashboard.js:30-39 | the `#rrggbb` code of three bytes reads back as those bytes, in both helpers, with alpha verbatim |
| HexColor.CaseInsensitive | static/scripts/insight_modal.js:109 | a code and its lower-case spelling give the same output |
| HexColor.HelpersAgreeOnCodes | static/scripts/insight_modal.js:107-118 | the two helpers agree on every accepted code; otherwise each gives its own spelling of rgba(52,152,219,α) |
| HexColor.OtherLengthsRejected | static/scripts/dashboard.js:32-38 | a text whose length is neither 4 nor 7 always gets the fallback blue (a corollary of HexColor.HelpersAgreeOnCodes) |
| Pomodoro.Toggled | static/scripts/pomodoro.js:19-53 | a press flips running and keeps the phase, the seconds left and the count (Pomodoro.PauseKeepsProgress) |
| Pomodoro.Completed | static/scripts/pomodoro.js:55-99 | a completion stops the timer and starts the next phase full, and work and breaks alternate (Pomodoro.CompletedValid, LongBreakEveryFourth, BreakKeepsCount) |
| Pomodoro.Ticked | static/scripts/pomodoro.js:36-44 | the timer stays running only when it counts down by one from above 0; otherwise the phase is completed (Pomodoro.CountDown, PhaseEnds) |
| Pomodoro.DisplayText | static/scripts/pomodoro.js:106-108 | the text ends in `:SS`, whose two digits read back as the seconds within the minute; Pomodoro.DisplayRoundTrip gives the whole `MM:SS` |
| Pomodoro.Timer.constructor | static/scripts/pomodoro.js:4-13 | the timer starts stopped, in work, with 1500 s and no completed cycles |
| Pomodoro.Timer.Toggle | static/scripts/pomodoro.js:19-53 | a press flips running and changes nothing else |
| Pomodoro.Timer.HandlePhaseComplete | static/scripts/pomodoro.js:55-99 | the timer state becomes the completed state: stopped, then work → short (180 s) or, at the fourth cycle, long (900 s) with the count reset; a break → work (1500 s) |
| Pomodoro.Timer.Tick | static/scripts/pomodoro.js:36-44 | a tick decrements the seconds left while they are above 0, and at 0 completes the phase |
| Pomodoro.Timer.UpdateDots | static/scripts/dashboard.js:675-685 | four dots, the i-th done exactly when i < cycleCount |
| Pomodoro.InitialValid | static/scripts/pomodoro.js:4-13 | the state on page load satisfies the invariant |
| Pomodoro.CompletedValid | static/scripts/dashboard.js:619-653 | a completion keeps 0 ≤ cycleCount < 4 and the seconds within the phase, stops the timer and starts the next phase full |
| Pomodoro.ApplyValid | static/scripts/dashboard.js:595-653 | every press and every second keeps the invariant |
| Pomodoro.RunValid | static/scripts/pomodoro.js:19-99 | any sequence of events keeps the invariant |
| Pomodoro.PauseKeepsProgress | static/scripts/pomodoro.js:46-52 | pause stops the timer, keeps phase, seconds and count, and resuming returns to the same state |
| Pomodoro.PausedTimeIsIgnored | static/scripts/dashboard.js:611-616 | while paused, seconds passing change nothing |
| Pomodoro.CountDown | static/scripts/dashboard.js:603-607 | k seconds of running time take k off the seconds left, for k up to the seconds left |
| Pomodoro.PhaseEnds | static/scripts/dashboard.js:603-610 | the second after the count reaches zero completes the phase |
| Pomodoro.LongBreakEveryFourth | static/scripts/pomodoro.js:65-93 | from a reset, three short breaks alternate with work, the fourth break is long, and then work restarts with the count 0 |
| Pomodoro.BreakKeepsCount | static/scripts/pomodoro.js:85-93 | a break hands back to work with 1500 s and the count unchanged |
| Pomodoro.DisplayRoundTrip | static/scripts/pomodoro.js:106-108 | the display is `MM:SS` with two digits each, and minutes·60 + seconds read back as the seconds left |
| ChartTheme.GetRandomPalette | static/scripts/chart_theme.js:33-56 | both lists have the length count asks for; the k-th background and border come from entry k mod 10 of the shuffled pool |
| ChartTheme.FisherYates | static/scripts/chart_theme.js:38-41 | the in-place loop leaves the array as the shuffle function of its old contents |
| ChartTheme.TakeCycling | static/scripts/chart_theme.js:44-49 | the selection has the palette length, and entry k is pool entry k mod 10 |
| ChartTheme.JsSliceTo | static/scripts/chart_theme.js:44 | `slice(0, count)` is a prefix of the length JavaScript gives, negative counts included |
| ChartTheme.ShufflePermutes | static/scripts/chart_theme.js:38-41 | each swap loop yields a permutation of its input and keeps distinct entries distinct |
| ChartTheme.ShuffledIsPermutation | static/scripts/chart_theme.js:35-41 | the shuffled copy is a permutation of COLOR_POOL with no entry twice |
| ChartTheme.PoolColoursDistinct | static/scripts/chart_theme.js:5-26 | the pool's background colours are pairwise different, and so are its border colours |
| ChartTheme.NonNegativeCountLength | static/scripts/chart_theme.js:44-55 | for count ≥ 0 both lists have exactly count colours |
| ChartTheme.PaletteColoursDistinct | static/scripts/chart_theme.js:44-55 | the first ten selected entries are pool entries with pairwise different background and border colours |
| Prompts.GetAuditPrompt | services/prompts.py:3-62 | the prompt contains the tone's persona; Prompts.PromptHoldsFields states that every field appears verbatim |
| Prompts.Persona | services/prompts.py:20-26 | one of the three personas; Prompts.PersonaByTone pins which tone gets which |
| Prompts.OrDefault | services/prompts.py:14-15 | the default text, or the note itself when it has a non-whitespace character; Prompts.BlankNoteUsesDefault pins which |
| Prompts.PersonaByTone | services/prompts.py:21-26 | "roast" gets exactly the sarcastic persona, "gentle" exactly the coach, and every other tone the strict auditor |
| Prompts.DefaultToneIsStrict | services/prompts.py:3-26 | the default tone gives the strict persona, and any tone other than roast or gentle gives the same prompt as the default |
| Prompts.BlankNoteUsesDefault | services/prompts.py:14-15 | a missing or whitespace-only note is replaced by its default text; any other note is kept verbatim |
| Prompts.TimeText | services/prompts.py:18 | the time text is 16 characters |
| Prompts.TimeTextRoundTrip | services/prompts.py:18 | the time text is `YYYY-MM-DD HH:MM`, and both halves read back as the moment it was made from |
| Prompts.Fields | services/prompts.py:29-39 | five values fill the template's five places |
| Prompts.PromptHoldsFields | services/prompts.py:29-62 | the persona, the time, both notes (or their defaults) and the logs each appear verbatim in the prompt |
| Prompts.RenderHolds | services/prompts.py:29-62 | every field placed into the template appears in its output |

## Left out

- Flask and SQLAlchemy plumbing: routing, redirects, templates, sessions, `db.create_all`, and login, registration and passwords. The database is the `Store` class's sequence of rows. A commit is the `committed` flag or the state change.
- `sp_access` (app.py:228-240) is a hard-coded read-only view and is not modelled.
- legacy-app.py is not part of this model: it has no day or archive logic.
- static/scripts/chart_logic.js, hud_logic.js, notebook.js, dark_mode.js, rain.js and record_time.js are not modelled. They hold DOM, Chart.js, fetch and animation code; record_time.js's `formatTime` is the same as dashboard.js's, which is modelled.
- DOM work in dashboard.js and pomodoro.js is left out: button texts, colours, the document title, chart drawing, `runNeuralAudit`, `submitRLHF` and the insight modal. `setInterval` is replaced by discrete one-second events. Both scripts redraw the dots after `cycleCount++` and before the reset to 0 (static/scripts/pomodoro.js:67-76, static/scripts/dashboard.js:627-634), so all four dots show done through a long break until `if (cycleCount === 0) updateDots()` runs; Pomodoro.Timer.UpdateDots draws the dots from the current count only, and that drawing order is not modelled.
- Floating-point rounding is left out:
  - the `:.1f` hours text (services/history_helper.py:57);
  - `round(…, 1)` (services/stats.py:34);
  - the progress percentages of the Pomodoro button (static/scripts/dashboard.js:665-666, static/scripts/pomodoro.js:123).

  Durations stay in whole seconds or minutes, and the focus percentage is computed exactly.
- HistoryHelper.BuildDayStats: durations are exact whole seconds, where the service adds float minutes (`total_seconds() / 60.0`) and computes `int(deep_work_min / total_min * 100)` in floats. Two effects are not modelled:
  - the focus percentage can differ even at whole minutes: for 29 Deep Work minutes out of 50, Python gives `int(0.58 * 100)` = 57 while the model gives 58;
  - at seconds resolution the top category can differ: for items B 00:00:00–00:00:18, then A 00:00:00–00:00:06 and A 00:00:00–00:00:12, Python sums A as 0.1 + 0.2 = 0.30000000000000004 minutes, which beats B's 0.3, so `max` returns "A"; the model has an exact tie of 18 s each and returns "B".
- Stats.CalculateStatsFromLogs returns minutes, not the service's hours.
- The LLM call that consumes the prompt is left out. `datetime.now()` is the `now` parameter and `Math.random` the `draws` parameter. The printed parse-failure warning is the `warned` flag.
- Characters:
  - `str.lower()` and `toLowerCase()` are modelled for ASCII letters only (Python and JavaScript lower-case all of Unicode); `strip()` uses Python's full `str.isspace` set of 29 characters, Unicode spaces included;
  - `%H`, `%M`, `%S`, `%Y` and `%m` read ASCII digits only;
  - `%Y` is read as four digits, as `str(date)` writes it for years 1 to 9999;
  - `strftime('%Y-…')` (services/stats.py:5-7, services/prompts.py:18) is taken to write the year as four zero-padded digits, like `str(date)`; for years below 1000 the padding of the platform's `strftime` varies between CPython versions, and that is not modelled.
- Records.LogicalDate: the OverflowError Python raises for a time before 06:00 on 0001-01-01 is excluded by the precondition, not modelled as an error.
- App.Store.Delete: a database error during the delete or the commit (the bare `except` at app.py:178-179, which returns "Error deleting item") is not modelled; the model's delete always succeeds once the owner check passes.
- App.Store.SaveNotes: `content` is `data.get('content')` of a JSON body, so it may be a number, a list, a bool or an object. The model takes it as an optional string (`null` or a missing key is `None`) and does not model the other JSON types.
- App.Store.Create: a database error other than a missing NOT NULL field (the generic `except` at app.py:95-96) is not modelled. The two clock readings (the request time and the column default) are separate parameters.
- Query.Sort: rows with equal sort keys come out in the one order the insertion sort fixes, while `order_by` at app.py:123 and app.py:152 leaves ties to the database. The model returns one of the orders the database may give, not every one.
- `archive_date` is NULL-able in the schema, but every row the modelled operations write has a date. The model's rows always carry one.
- The sweep and end-of-day work on the rows the query returned, which SQLAlchemy writes back at commit. The model updates the stored sequence directly, so identity and aliasing of ORM objects are not captured.
- `update_user_streak` does not commit; the caller persists the user. The model updates the `Streak.User` object in place.
- JavaScript NaN, non-integer and non-number inputs to `formatDuration`, `formatTime` and `getRandomPalette` are not modelled. Neither are prototype keys of `PALETTE` (`_getKey` looks keys up with `PALETTE[cat.key]`, which also finds inherited names such as "constructor"). The `alpha` of `hexToRgba` is a string passed through verbatim.
- `logs_data` is taken as the text the f-string inserts, that is, its `str()`.
- Two behaviours of the code are kept as written:
  - entry creation rejects only a missing field, not an empty one (an empty string is stored);
  - in services/stats.py a log whose description is NULL has its minutes added to the total before `.lower()` raises, so it is not skipped entirely (Stats.MissingDescOnlyInTotal).
