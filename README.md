# Productivity calendar: a verified model of its component logic

This project models the logic inside the React components of a personal productivity calendar. It covers:

- the habit tracker: the streak count, toggling a day, the week strip, adding and deleting habits, and today's progress;
- the weekly productivity analytics: the score, the category breakdown, the streak summary, upcoming deadlines, and the score colour and badge;
- the month grid: the 42 cells, the per-cell lookups, hover adjacency, the cell indicators, and month navigation;
- the mood log: the one-entry-per-date save, the lookup of the shown day, and the weekly average;
- the quote card: the date checksum, the random refresh, and the card's state across mount, date change and refresh;
- the event list handlers and the widget switch of the application shell;
- the event form state machine and the category icons;
- the world clock's time-of-day label.

The model is written in Dafny and every contract is proved.

Conventions the model fixes:

- **Days.** A calendar day is an integer day number. Day 0 is 0000-01-01 in the proleptic Gregorian calendar. Month lengths and leap years follow section 5.7 and Appendix C of RFC 3339 (`Gregorian`). `Weekday(n)` is 0 for Sunday.
- **Date keys.** Keys are the strings the components store. `KeyOf(n)` is the date part of `toISOString`: a four-digit year for years 0 to 9999, and ECMAScript's expanded six-digit year with a sign otherwise. `ParseKey` accepts exactly the RFC 3339 section 5.6 `full-date`s of days that exist. It answers `None` (an Invalid Date, NaN) for any other string. Round trips and the agreement of string order with day order are proved in `DateKeys`.
- **Time.** `now` counts milliseconds since 0000-01-01T00:00Z, and `Today(now) = now / 86400000`. The local clock and UTC are taken to be one time zone.
  - The seven-day window of the analytics compares `new Date(key)` (a UTC midnight) with `now − 7 days`, time of day included. At day granularity it is "today − 6 onward, future days included", or "today − 7 onward" at exact midnight (`Recent`).
  - The deadline window is today + 1 to today + 7, or today to today + 7 at exact midnight (`InDeadlineWindow`).
- **Clock, ids and randomness are parameters.** `Date.now()` becomes `nowMs` (ids are `NumberToString(nowMs)`). `new Date()` becomes `today` or `now`. `Math.random() * 1000` floored becomes `r` with `0 <= r < 1000`.
- **Numbers.** Numbers are exact: divisions are on `real`, and `Math.round` is `floor(x + 1/2)`. `parseInt` answers `None` for NaN, and `%` truncates toward zero as in JavaScript (`JsRem`).
- **Truthiness.** A `string | null` is an `Option<string>`. `x || y` picks `y` for both `null` and the empty string (`Truthy`, `OrElse`).
- **String sort.** `Array.prototype.sort()` on strings is lexicographic order on code points (`LexLess`, `SortStrings`).

The calendar's and the mood panel's mood lookups take the *first* entry for a date (`find`), in list order. `handleSaveMood` keeps at most one entry per date, so for lists built by saving, that entry is the only one.

## Model

| member | source | states |
|---|---|---|
| HabitTracker.DiffDays | src/components/HabitTracker.tsx:78-80 | the day difference is defined exactly for readable keys and equals today's day minus the key's day |
| HabitTracker.DiffDaysMatch | src/components/HabitTracker.tsx:78-82 | the loop's test `diffDays === streak` holds exactly when the key names the day `streak` days before the current date |
| HabitTracker.Streak | src/components/HabitTracker.tsx:74-88 | the streak is at most the list length; it is positive exactly when the first (latest) date is today; element i of the counted prefix is today − 2i, and the first uncounted element is not |
| HabitTracker.StreakIsLongestPrefix | src/components/HabitTracker.tsx:74-86 | any prefix length whose i-th element is today − 2i and which cannot be extended is the streak: the streak is the longest such prefix |
| HabitTracker.StreakEmpty | src/components/HabitTracker.tsx:69 | no completed dates give streak 0 |
| HabitTracker.CalculateStreak | src/components/HabitTracker.tsx:68-91 | the method sorts the array in place into descending string order and returns the streak of the sorted list (the loop with its mutable current date, proved against `Streak`) |
| HabitTracker.ConsecutiveStreak | src/components/HabitTracker.tsx:74-88 | the evidently intended rule: element i of the counted prefix is today − i, and the first uncounted element is not |
| HabitTracker.StreakCounterexample | src/components/HabitTracker.tsx:77-86 | for the stored list [today, yesterday] (sorted descending) the code's streak is 1 while the consecutive-day streak is 2 |
| HabitTracker.ConsecutiveStreakIsRun | src/components/HabitTracker.tsx:68-91 | for distinct past-or-today completion keys, the corrected streak k is a consecutive run: every day of today − k + 1 … today is completed and today − k is not |
| HabitTracker.SortedKeysChronological | src/components/HabitTracker.tsx:56 | for readable keys, ascending string order is exactly chronological order, and descending string order is exactly reverse chronological order |
| HabitTracker.KeyLessEq | src/components/HabitTracker.tsx:71 | for two readable keys, string order `<=` agrees with day order `<=` in both directions |
| HabitTracker.ToggledDates | src/components/HabitTracker.tsx:50-54 | toggling removes every copy of a present date and appends an absent one once; every other date keeps its multiplicity |
| HabitTracker.ToggledHabit | src/components/HabitTracker.tsx:46-63 | the toggled habit keeps its id, name and colour; its dates are the toggled dates, stored in descending order; its streak field is the streak recomputed from the stored dates |
| HabitTracker.ToggleFlips | src/components/HabitTracker.tsx:50-56 | after a toggle the date's membership is flipped (zero copies if it was present, one if absent) and every other date's membership and count are unchanged |
| HabitTracker.ToggleIfMatch | src/components/HabitTracker.tsx:45-64 | the `map` callback keeps id, name and colour; another id returns the habit unchanged; the matching habit has exactly the toggled date flipped and its streak recomputed from its dates |
| HabitTracker.ToggleOne | src/components/HabitTracker.tsx:45-64 | the `map` callback: the habit with the id is toggled, any other is returned unchanged |
| HabitTracker.ToggleHabit | src/components/HabitTracker.tsx:43-66 | the list keeps its length and order; only habits with the id are toggled |
| HabitTracker.ToggleTwiceRestoresDays | src/components/HabitTracker.tsx:50-54 | toggling the same date twice restores the set of completed dates |
| HabitTracker.ToggleKeepsDistinct | src/components/HabitTracker.tsx:50-54 | a date list without repeats stays without repeats after a toggle |
| HabitTracker.WeekDates | src/components/HabitTracker.tsx:93-104 | exactly seven keys, the j-th being today − 6 + j and the last today; for four-digit years they ascend strictly as strings |
| HabitTracker.WeekKeysAscending | src/components/HabitTracker.tsx:93-104 | the seven keys of today − 6 … today ascend strictly in string order when their years have four digits |
| HabitTracker.DeleteHabit | src/components/HabitTracker.tsx:106-108 | exactly the habits without the id remain, in their order and with their multiplicity; an absent id changes nothing |
| Entities.SelectedOrToday | src/components/HabitTracker.tsx:111 | the habit panel's current key, and the key a mood save is filed under (the same `selectedDate \|\| today` at MoodTracker.tsx:31), is the selected date when one is selected (non-empty), and today's key otherwise |
| HabitTracker.DoneCount | src/components/HabitTracker.tsx:264 | the done count for the current key is the length of the habits filtered by "the current key is completed", so at most the number of habits; it equals it iff every habit has the key, and is 0 iff none has |
| HabitTracker.ProgressWidth | src/components/HabitTracker.tsx:259 | the bar width is 100 × done on the current key / number of habits, 0 with no habits; it lies in 0..100 and is 100 iff there are habits and all are done on the current key |
| HabitTracker.Tracker.constructor | src/components/HabitTracker.tsx:19-21 | the form starts closed, with an empty name and the default blue |
| HabitTracker.Tracker.AddHabit | src/components/HabitTracker.tsx:27-41 | a blank name changes nothing; otherwise one habit with the clock's id, the name, colour, streak 0 and no dates is appended, the name is cleared and the form closes |
| HabitTracker.Tracker.Toggle | src/components/HabitTracker.tsx:43-66 | the stored habits become the toggled list and the form fields are unchanged |
| HabitTracker.Tracker.Delete | src/components/HabitTracker.tsx:106-108 | the stored habits become the list without the id and the form fields are unchanged |
| ProductivityInsights.Recent | src/components/ProductivityInsights.tsx:40-44 | a key is inside the seven-day window iff it is readable and its day is at least today − 6 (today − 7 at exact midnight); future days count |
| ProductivityInsights.RecentDates | src/components/ProductivityInsights.tsx:57 | the habit filter keeps exactly the keys in the window, each with its multiplicity |
| ProductivityInsights.RecentEvents | src/components/ProductivityInsights.tsx:44 | the event filter keeps exactly the events whose date is in the window, each with its multiplicity |
| ProductivityInsights.RecentMoods | src/components/ProductivityInsights.tsx:48 | the mood filter keeps exactly the moods whose date is in the window, each with its multiplicity |
| ProductivityInsights.EventScore | src/components/ProductivityInsights.tsx:45 | the event part is 10 × the number of events in the window below four and 40 from four on; so it lies in 0..40, is a multiple of 10, and is 40 iff at least four events are in the window |
| ProductivityInsights.MoodScore | src/components/ProductivityInsights.tsx:48-53 | the mood part is 18 with no recent moods and otherwise 6 × the average mood value (1..5) of the recent moods; it always lies in 6..30 |
| ProductivityInsights.HabitSum | src/components/ProductivityInsights.tsx:56-58 | the summed habit parts are 30 × the total number of completions in the window / 7, so non-negative, and at most 30 per habit when no habit has more than seven recent dates |
| ProductivityInsights.HabitScore | src/components/ProductivityInsights.tsx:56-59 | the habit part is 0 with no habits and otherwise the mean of the per-habit parts, 30 × total recent completions / (7 × number of habits); never negative, and at most 30 when no habit has more than seven recent dates |
| ProductivityInsights.HabitScoreUnclamped | src/components/ProductivityInsights.tsx:56-59 | a habit with eight dates in the window pushes the habit part above 30: it is not clamped |
| ProductivityInsights.ProductivityScore | src/components/ProductivityInsights.tsx:37-62 | the score is round(event part + mood part + habit part), so at least 6 and at most 100 when no habit has more than seven recent dates |
| ProductivityInsights.OneRecentEventScore | src/components/ProductivityInsights.tsx:37-62 | one event in the window, no moods and no habits give the score 28 (10 + 18 + 0) |
| ProductivityInsights.RecentEventsGrow | src/components/ProductivityInsights.tsx:44 | appending an event never lowers the number of events in the window |
| ProductivityInsights.AddedEventNoLower | src/components/ProductivityInsights.tsx:37-62 | adding an event never lowers the productivity score |
| ProductivityInsights.Tally | src/components/ProductivityInsights.tsx:65-68 | the `reduce` holds one entry per distinct category, in first-appearance order, each counting its category's events; the counts add up to the number of events |
| ProductivityInsights.Shares | src/components/ProductivityInsights.tsx:70-74 | the `map` keeps each entry's category and count, in order, and gives it the percentage round(100·count/total) |
| ProductivityInsights.CategoryBreakdown | src/components/ProductivityInsights.tsx:64-75 | no events give an empty list; otherwise one entry per distinct category in first-appearance order, with its count and percentage round(100·count/number of events), which lies in 0..100 |
| ProductivityInsights.SharesOfTally | src/components/ProductivityInsights.tsx:70-74 | mapping the tally to percentages keeps categories, order and counts, and each percentage is round(100·count/number of events) in 0..100 |
| ProductivityInsights.BreakdownCountsSum | src/components/ProductivityInsights.tsx:64-75 | the breakdown's counts sum to the number of events |
| ProductivityInsights.LongestStreak | src/components/ProductivityInsights.tsx:79 | the longest streak is at least 0, at least every habit's streak field and, unless 0, equal to one of them |
| ProductivityInsights.ActiveCount | src/components/ProductivityInsights.tsx:80 | the active count is the length of the habits filtered by a positive streak, so at most their number; it is 0 iff no streak is positive and the total iff every streak is |
| ProductivityInsights.GetStreakInfo | src/components/ProductivityInsights.tsx:77-83 | the summary's total is the number of habits, its active count is at most the total, and it carries the longest streak and active count |
| ProductivityInsights.SuccessRate | src/components/ProductivityInsights.tsx:186 | the success rate is round(100 × active / total) with habits and 0 without; it lies in 0..100, is 0 when none is active, and 100 when all are active |
| ProductivityInsights.InDeadlineWindow | src/components/ProductivityInsights.tsx:86-93 | a key is inside the deadline window iff it is readable and its day is in today + 1 … today + 7 (from today at exact midnight) |
| ProductivityInsights.DeadlineCandidates | src/components/ProductivityInsights.tsx:87-93 | the filter keeps exactly the high-priority events inside the deadline window, each with its multiplicity |
| ProductivityInsights.TakeSortedEarliest | src/components/ProductivityInsights.tsx:94-96 | the first n of a list sorted by a key are sorted, come from the list, and are no later than anything left out |
| ProductivityInsights.UpcomingDeadlines | src/components/ProductivityInsights.tsx:85-97 | at most three deadlines (fewer only when fewer qualify), a sub-multiset of the qualifying high-priority events inside the window, ascending by date, none later than a qualifying event left out |
| ProductivityInsights.ScoreColorOf | src/components/ProductivityInsights.tsx:104-109 | green iff the score is at least 80, blue for 60..79, yellow for 40..59, red below 40 |
| ProductivityInsights.ScoreColorMonotone | src/components/ProductivityInsights.tsx:104-109 | a higher score never gets a lower colour |
| ProductivityInsights.ChampionIsGreen | src/components/ProductivityInsights.tsx:217 | the champion badge shows iff the colour is green, that is iff the score is at least 80 |
| Calendar.MonthOfDay | src/components/Calendar.tsx:63-64 | the days from the first of a month up to its length are the days of that month, in order |
| Calendar.AnchorInMonth | src/components/Calendar.tsx:61-64 | the anchor lies in its month, at offset day − 1 from the first |
| Calendar.GridStart | src/components/Calendar.tsx:65-66 | the grid starts on a Sunday, at most six days before the first of the anchor's month |
| Calendar.MonthGrid | src/components/Calendar.tsx:60-75 | exactly 42 consecutive days starting on a Sunday; the month's first day is at index ≤ 6 and its last at index ≤ 36 |
| Calendar.GridCoversMonth | src/components/Calendar.tsx:60-75 | every day of the anchor's month lies inside the 42 cells |
| Calendar.IsCurrentMonth | src/components/Calendar.tsx:86-88 | the test compares month numbers only; inside the 42 cells it flags exactly the anchor month's days, which carry the anchor's year, so ignoring the year is harmless there |
| Calendar.MoodForDate | src/components/Calendar.tsx:98-100 | the first mood entry for the key in list order, or none when there is no entry for it |
| Calendar.HabitsForDate | src/components/Calendar.tsx:102-104 | exactly the habits whose completed dates contain the key, in input order, with their multiplicity |
| Calendar.AdjacentDates | src/components/Calendar.tsx:119-130 | two keys for a readable key; none (the thrown RangeError) for an unreadable one |
| Calendar.KeyNamesDay | src/components/Calendar.tsx:126-129 | for a four-digit year, a string is the key of day n iff it is readable and names day n |
| Calendar.IsAdjacentToHovered | src/components/Calendar.tsx:132-136 | false when nothing is hovered; otherwise defined exactly when the hovered key is readable |
| Calendar.KeyInAdjacent | src/components/Calendar.tsx:119-130 | a key is among the adjacent dates iff it is readable and names the day before or the day after the hovered day |
| Calendar.AdjacentMeansNeighbour | src/components/Calendar.tsx:132-136 | a cell is highlighted iff its key names the day before or after the hovered day |
| Calendar.HoveredNotAdjacent | src/components/Calendar.tsx:132-136 | the hovered day itself is never highlighted as adjacent |
| Calendar.ShowsPriorityBadge | src/components/Calendar.tsx:329 | the badge shows iff some event of the day has high priority |
| Calendar.Truncate | src/components/Calendar.tsx:240-256 | shows the first min(limit, n) items and a "+k more" count exactly when n exceeds the limit, with shown + k = n |
| Calendar.EventChips | src/components/Calendar.tsx:240-256 | the chips are the first min(2, n) events of the day, and "+(n − 2) more" shows exactly when there are more than two |
| Calendar.HabitDots | src/components/Calendar.tsx:223-232 | the dots are the first min(3, h) habits done that day, and "+(h − 3)" shows exactly when there are more than three |
| Calendar.StepMonth | src/components/Calendar.tsx:93 | the (year, month) pair moves by exactly one month, with the December and January carry |
| Calendar.ShiftMonth | src/components/Calendar.tsx:92-94 | `setMonth` keeps the day of month when it exists in the target month and otherwise overflows into the month after |
| Calendar.NavigateKeepsDay | src/components/Calendar.tsx:90-96 | when the day of month is at most 28, navigation keeps it and moves the month by exactly one |
| Calendar.MonthView.constructor | src/components/Calendar.tsx:51 | the view starts on today |
| Calendar.MonthView.NavigateMonth | src/components/Calendar.tsx:90-96 | the shown date becomes the shifted date |
| MoodTracker.SavedMoods | src/components/MoodTracker.tsx:39-42 | after a save the new entry is last and the only one for its date; the other dates' entries keep their order; the length is the old length minus the prior entries for the date plus one; one entry per date is preserved |
| MoodTracker.KeptLength | src/components/MoodTracker.tsx:40-41 | the filter drops exactly the entries for the saved date |
| MoodTracker.FilterKeepsUnique | src/components/MoodTracker.tsx:40-41 | filtering preserves one entry per date |
| MoodTracker.TodayMood | src/components/MoodTracker.tsx:47-50 | the first entry for the selected day or today, or none when there is no entry for that date |
| MoodTracker.SaveThenLookup | src/components/MoodTracker.tsx:30-50 | looking up the day just saved finds exactly the entry just saved |
| MoodTracker.WeeklyAverage | src/components/MoodTracker.tsx:52-59 | 0 for no entries; otherwise within 0.05 of the mean mood value of the last min(7, n) entries by position, and in 1..5 |
| MoodTracker.MoodPanel.constructor | src/components/MoodTracker.tsx:18-20 | the form starts on "good", energy 5 and no notes |
| MoodTracker.MoodPanel.SaveMood | src/components/MoodTracker.tsx:30-45 | the list becomes the saved list with the form's entry under the save date, the notes are cleared, mood and energy stay |
| Entities.MoodValueStrictlyIncreasing | src/components/MoodTracker.tsx:56 | the mood values terrible = 1 … excellent = 5 rise strictly with the mood and are distinct |
| Entities.MoodSum | src/components/MoodTracker.tsx:56 | the summed mood values of n entries lie in n..5n |
| DateChecksum.PartsSum | src/components/QuoteDisplay.tsx:46 | the parts' sum is a number iff every dash-separated part reads as a number |
| DateChecksum.DateHash | src/components/QuoteDisplay.tsx:46 | the checksum is a number iff every dash-separated part reads as one; for a YYYY-MM-DD string it is year + month + day |
| QuoteDisplay.DateHashOfKey | src/components/QuoteDisplay.tsx:61 | every full-date is date-shaped and its checksum is its year + month + day |
| QuoteDisplay.DeterministicIndex | src/components/QuoteDisplay.tsx:61-62 | the index is NaN iff the checksum is; otherwise it lies strictly between −count and count and has the checksum's sign; for a date-shaped key it is in 0..count − 1 |
| QuoteDisplay.RandomIndex | src/components/QuoteDisplay.tsx:46-48 | the same for checksum + random factor: NaN iff the checksum is, strictly between −count and count with the sum's sign, and in 0..count − 1 for a date-shaped key and a non-negative factor |
| QuoteDisplay.DeterministicQuote | src/components/QuoteDisplay.tsx:61-63 | a quote is shown iff the index is a number and not negative, and it is the quote at that index; none for a NaN checksum; always one of the list for a date-shaped key |
| QuoteDisplay.RandomQuote | src/components/QuoteDisplay.tsx:45-50 | the same for the random index: the quote at the index when it is a number and not negative, none for a NaN checksum, one of the list for a date-shaped key and a non-negative factor |
| QuoteDisplay.KeyIndices | src/components/QuoteDisplay.tsx:61-63 | for a date-shaped key both indices lie in the list and both quotes are found: each is the quote at its index |
| QuoteDisplay.IndexCongruence | src/components/QuoteDisplay.tsx:48 | each index that is a number is congruent modulo count to what it reduces: the checksum for the date effect, checksum + random factor for a refresh |
| QuoteDisplay.NumberIsIndexPlusOne | src/components/QuoteDisplay.tsx:149 | for a date-shaped key the card number is the deterministic index + 1, whichever quote is shown |
| QuoteDisplay.NonNegativeHashNumber | src/components/QuoteDisplay.tsx:149 | whenever the checksum is a number ≥ 0, the card number is the deterministic index + 1 |
| QuoteDisplay.NaNPart | src/components/QuoteDisplay.tsx:46-49 | a part that does not read as a number makes both quotes undefined and the card number NaN |
| QuoteDisplay.SwapMonthDay | src/components/QuoteDisplay.tsx:61 | swapping month and day selects the same quote and shows the same number |
| QuoteDisplay.DisplayNumber | src/components/QuoteDisplay.tsx:149 | the card number lies in 1..count and is a number iff the checksum is |
| QuoteDisplay.QuoteAt | src/components/QuoteDisplay.tsx:47-48 | indexing finds a quote of the list iff the index is inside it |
| QuoteCard.ShownQuoteListed | src/components/QuoteDisplay.tsx:45-64 | for a date-shaped selection both the date effect and a refresh show one of the thirty quotes |
| QuoteCard.Card.Mount | src/components/QuoteDisplay.tsx:60-68 | on mount the random quote is shown: the mount effect runs after the date effect |
| QuoteCard.Card.ChangeDate | src/components/QuoteDisplay.tsx:60-64 | a new date shows its deterministic quote; the same date changes nothing |
| QuoteCard.Card.BeginRefresh | src/components/QuoteDisplay.tsx:52-53 | the refresh starts the spinner and remembers the date it was started for |
| QuoteCard.Card.CompleteRefresh | src/components/QuoteDisplay.tsx:54-57 | the timeout shows the random quote for the remembered date and stops the spinner |
| App.AddEvent | src/App.tsx:123-129 | exactly one event is appended, with the given fields and the clock's id, and the existing events are unchanged |
| App.DeleteUndoesAdd | src/App.tsx:123-139 | deleting the id an add just used undoes the add; ids from the clock are not unique, so it also removes an older event with that id |
| App.EditEvent | src/App.tsx:131-135 | length and order are kept; every event with the id takes the new fields and keeps its id; the others are unchanged |
| App.EditKeepsIds | src/App.tsx:131-135 | an edit keeps every position's id |
| App.EditAbsent | src/App.tsx:131-135 | an edit of an id no event has changes nothing |
| App.EditIdempotent | src/App.tsx:131-135 | editing twice with the same fields is editing once |
| App.DeleteEvent | src/App.tsx:137-139 | exactly the events without the id remain, in their order and with their multiplicity; an absent id changes nothing |
| App.EventsForDate | src/App.tsx:141-143 | exactly the events filed under the key, in list order, with their multiplicity |
| App.ToggleWidget | src/App.tsx:150-152 | the active widget closes; any other widget becomes the active one |
| App.ToggleTwice | src/App.tsx:150-152 | toggling the same widget twice returns to the start iff nothing or that widget was open, and otherwise closes everything |
| App.MonthPrefix | src/App.tsx:335 | the prefix is the first seven characters of today's key, "YYYY-MM" for four-digit years |
| App.MonthCount | src/App.tsx:333-336 | the "this month" count is the length of the events filtered by a date starting with the current YYYY-MM; it is at most the total, and equals it iff every event passes |
| App.HighCount | src/App.tsx:338-342 | the high-priority count is the length of the events filtered by high priority; it is at most the total, equals it iff all events are high priority, and is 0 iff none is |
| App.Shell.constructor | src/App.tsx:40-45 | the shell starts with no date selected or hovered, no widget and no panel open |
| App.Shell.DateClick | src/App.tsx:114-117 | the date is selected and the quote card opens; nothing else changes |
| App.Shell.DateHover | src/App.tsx:119-121 | the hovered date is set; nothing else changes |
| App.Shell.AddEventNow | src/App.tsx:123-129 | the event list becomes the list with the event added; nothing else changes |
| App.Shell.EditEventNow | src/App.tsx:131-135 | the event list becomes the edited list; nothing else changes |
| App.Shell.DeleteEventNow | src/App.tsx:137-139 | the event list becomes the list without the id; nothing else changes |
| App.Shell.QuickAdd | src/App.tsx:145-148 | today's key is selected and the event panel opens; nothing else changes |
| App.Shell.Toggle | src/App.tsx:150-152 | the active widget is toggled; nothing else changes |
| EventManager.BlankForm | src/components/EventManager.tsx:81-89 | the blank form: empty title, description and time, the given date, the default blue "#3B82F6", medium priority, personal category |
| EventManager.FormDate | src/components/EventManager.tsx:37 | a fresh form's date is the selected date when one is selected, else the empty string |
| EventManager.Apply | src/components/EventManager.tsx:71-75 | a submit's command becomes the shell's add (one event appended with the form's fields) or edit (length kept, every event with the id takes the form's fields, the others unchanged), and no command changes nothing |
| EventManager.RelevantEvents | src/components/EventManager.tsx:108-110 | with a selected day, exactly that day's events in order and with their multiplicity; otherwise the first min(10, n) events |
| EventManager.CategoryNamed | src/components/EventManager.tsx:122 | the `find` over the categories finds the category with that name, and nothing iff no category has it |
| EventManager.IconOf | src/components/EventManager.tsx:53-59 | each category's icon from the category list, none of which is the calendar fallback |
| EventManager.CategoryIcon | src/components/EventManager.tsx:121-123 | the icon of the category the string names; the calendar fallback iff it names none |
| EventManager.EventForm.constructor | src/components/EventManager.tsx:32-42 | the form starts closed, editing nothing, blank on the selected date |
| EventManager.EventForm.SyncDate | src/components/EventManager.tsx:61-65 | a selected day changes only the form's date; no selection changes nothing |
| EventManager.EventForm.ResetForm | src/components/EventManager.tsx:80-92 | the form becomes blank on the selected date, editing nothing, closed |
| EventManager.EventForm.StartEdit | src/components/EventManager.tsx:94-106 | the form opens holding the event's seven fields and remembers the event |
| EventManager.EventForm.Submit | src/components/EventManager.tsx:67-78 | a blank title does nothing; otherwise an edit of the remembered event's id or an add, with the form's fields, and then the form is reset |
| EventManager.EditUnchanged | src/components/EventManager.tsx:94-106 | opening an event and submitting it unchanged leaves the list as it was, when no other event shares its id |
| EventManager.AddedEventRelevant | src/components/EventManager.tsx:108-110 | a newly added event shows last among the relevant events of its own day |
| TimeZoneWidget.PeriodOfHour | src/components/TimeZoneWidget.tsx:60-63 | hours 6–11 are Morning, 12–17 Afternoon, 18–21 Evening; everything else, NaN included, is Night; each hour gets exactly one period |
| TimeZoneWidget.TimeOfDay | src/components/TimeZoneWidget.tsx:58-64 | `getTimeOfDay`: the period of the number before the first ':' by the 6/12/18/22 thresholds, Night when that text is not a number |
| TimeZoneWidget.HourField | src/components/TimeZoneWidget.tsx:59 | `split(':')[0]` is the text before the first ':', or all of it when there is none |
| TimeZoneWidget.ClockTime | src/components/TimeZoneWidget.tsx:58-59 | for "HH:…" the hour read is the number the two digits denote |
| TimeZoneWidget.ClockHour | src/components/TimeZoneWidget.tsx:58-64 | the label of a zero-padded hour followed by the minutes is the period of that hour |
| TimeZoneWidget.PeriodsInOrder | src/components/TimeZoneWidget.tsx:60-63 | through the day up to 22:00 the label never steps back: early Night, Morning, Afternoon, Evening |
| TimeZoneWidget.MidnightEitherWay | src/components/TimeZoneWidget.tsx:58-63 | "24:…" and "00:…" both read as Night |
| DateKeys.ParseKeyOf | src/components/HabitTracker.tsx:97-100 | reading back the key of a day with a four-digit year gives that day |
| DateKeys.KeyOfParseKey | src/components/HabitTracker.tsx:78 | a readable key is the key of the day it names |
| DateKeys.KeyOfInjective | src/components/HabitTracker.tsx:97-100 | different days with four-digit years have different keys |
| DateKeys.KeyOrder | src/components/HabitTracker.tsx:56 | for readable keys, string order is day order |
| DateKeys.LexLessFullDate | src/components/HabitTracker.tsx:56 | string order of full-dates is calendar order of (year, month, day) |
| Gregorian.CivilOfDayNumber | src/components/Calendar.tsx:63-71 | converting a valid calendar date to a day number and back gives the same date |
| Gregorian.DayNumberOrder | src/components/Calendar.tsx:63-71 | day numbers keep the order of calendar dates |

## Left out

- Loading and saving through `localStorage`, and seeding the sample events and habits (src/App.tsx:50-112), are persistence I/O and are not part of this model. The shell, tracker and mood panel constructors take the loaded lists as parameters.
- The clock (`new Date()`, `Date.now()`) and `Math.random()` are parameters: `today`, `now`, `nowMs` and `r`.
- Time zones are not modelled. Local time and UTC are one zone. The mixing of `toISOString` on local-midnight dates in the month grid, and of UTC-parsed keys against the local clock in the streak and the analytics, is folded into whole days. So are DST effects on millisecond differences and on `Math.ceil` in the streak loop.
- `Intl` formatting, `setInterval` and the city list of the world clock (src/components/TimeZoneWidget.tsx:24-56) are foreign library calls and timers. The model starts from the formatted time string.
- The `setTimeout` in `refreshQuote` is not modelled as a timer. The refresh is split into `BeginRefresh` and `CompleteRefresh`, and the delay in between is not modelled.
- Floating-point rounding of divisions and `Math.round` is not modelled. All arithmetic is exact on rationals, with halves rounded up.
- Lenient date parsing is not modelled. `new Date(s)` is modelled only for RFC 3339 full-dates, and every other string reads as an Invalid Date. Engines accept more formats than that, but every key the components produce is a full-date.
- String sort compares code points. JavaScript compares UTF-16 code units; the two differ only for characters outside the Basic Multilingual Plane, which no date key contains.
- Years outside 0000–9999: the ordering and round-trip lemmas require four-digit years. `KeyOf` models the expanded year form, but the proofs do not cover it.
- The stability of `Array.prototype.sort` is not used. The deadline list is proved sorted, a sub-multiset of the qualifying events, and earliest-first, but its order among events on the same day is not pinned down.
- `WeatherWidget.tsx` is not part of this model. It holds static state and icon switches only.
- JSX, CSS class strings, colour lists, `getPriorityColor`, `getMoodColor`, and month and day names are rendering and are not modelled. The rendered counts, thresholds and the chosen quote are modelled. The thirty quotes' texts, authors and categories are part of the model (`QuoteCard.QuoteNumber`).
- React scheduling is not modelled, apart from effects running in declaration order on mount.
- `isToday` in the calendar compares with the wall clock through `toDateString` and is not modelled.
- HabitTracker.ConsecutiveStreakIsRun: requires the completed dates to be distinct readable keys no later than today; lists with repeats or future keys are not covered.
- ProductivityInsights.ProductivityScore: the upper bound 100 is proved only when no habit has more than seven completions in the window, because the habit part is not clamped (HabitScoreUnclamped).
- ProductivityInsights.UpcomingDeadlines: ties on the same day are not ordered, since sort stability is not modelled.
- MoodTracker.WeeklyAverage: the contract bounds the result to within 0.05 of the exact mean; it does not also state that the result is a multiple of 0.1.

## Findings

| source | as written | input that shows it | evidently intended | confidence | as-written member | corrected member |
|---|---|---|---|---|---|---|
| src/components/HabitTracker.tsx:77-86 | the loop moves `currentDate` back one day on every match while the required difference is the growing `streak`, so element i of the sorted list must be today − 2i | completed dates {today, yesterday}: the streak is 1 | the number of consecutive completed days ending today, here 2 | not executed | HabitTracker.StreakCounterexample | HabitTracker.ConsecutiveStreakIsRun |
