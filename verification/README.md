# Orbit dashboard: list and state logic in Dafny

Orbit is a browser dashboard with several views: an alarm clock with a countdown timer and a stopwatch, a reminders list, a month calendar with events, a world clock, and a weather panel. Most of the code is view markup. This project models the logic underneath it:

- the operations that build each view's lists;
- the countdown timer's state machine;
- the text each view derives from its data.

Each part is proved against the promise it makes. The clock, `Math.random` and `Date.now()` ids become parameters, and so does every host locale string.

Modules, one file each:

- `wrappers.dfy`, module `Wrappers`: `Option`.
- `arith.dfy`, module `Arith`: the uniqueness of Euclidean quotient and remainder.
- `lists.dfy`, module `Lists`: `Array.prototype.filter` as `Filter` (membership, counts, order), the conditional `map` the list updates use, `indexOf`, removal by index, and last match.
- `text.dfy`, module `Text`: the JavaScript string operations the views use:
  - `trim`, over the ECMAScript white-space set;
  - `toLowerCase`, ASCII and Latin-1 only;
  - `includes`;
  - non-negative `toString`;
  - `padStart(2, '0')`;
  - the `<` order on strings, with its order laws;
  - `join`.
- `chronometer.dfy`, module `Chronometer` (src/components/ToolsView.tsx):
  - the alarm form's weekday toggle and save;
  - the alarm list and the trigger check;
  - the days caption;
  - the timer's duration and `format`;
  - the stopwatch's `formatTime`.
- `countdown.dfy`, module `Countdown`: `TimerTool` as a class whose fields are the hook state and whose methods are the event handlers. The one-second effect is `Tick`. `RunOut` runs the interval until the timer stops.
- `reminders.dfy`, module `Reminders` (src/components/RemindersView.tsx):
  - form save and list operations;
  - used categories;
  - the filter-then-sort pipeline, as a method with an insertion sort;
  - statistics and the due-date label.
- `calendar.dfy`, module `Calendar` (src/components/CalendarView.tsx):
  - proleptic Gregorian dates and weekdays;
  - month navigation with year carry;
  - the 42-cell grid, built by a method with the source's three loops;
  - event save, lookup, add, edit and delete.
- `world_clock.dfy`, module `WorldClock` (src/components/WorldClockView.tsx):
  - the 87-city database;
  - its flattening;
  - the search and region pickers;
  - the available count;
  - duplicate-free add and remove by index.
- `weather.dfy`, module `Weather` (src/services/weatherService.ts):
  - condition codes to icons;
  - description choice;
  - the weather record built from a forecast response.

Where the description of the app and the code differ, the model follows the code:

- A triggered alarm is switched off on dismissal when its `repeat` flag is false. This does not depend on whether it has days (`Chronometer.DismissAlarm`).
- Nothing stops an alarm from triggering again within the same minute: the check runs every second. `Chronometer.DismissedRepeatingAlarmRetriggers` proves that a dismissed repeating alarm is found again by the next check.

## Model

| member | source | states |
|---|---|---|
| Lists.Filter | src/components/RemindersView.tsx:221-228 | `filter` keeps exactly the elements satisfying the predicate, each with its multiplicity, in their original relative order |
| Lists.FilterSplit | src/components/RemindersView.tsx:253-254 | the active and completed filters together count every reminder once |
| Lists.FilterMonotone | src/components/RemindersView.tsx:253-255 | a stronger predicate keeps no more elements (high-priority active reminders never outnumber active ones) |
| Lists.FilterKeepsAll | src/components/CalendarView.tsx:237-239 | filtering with a predicate every element meets returns the list unchanged |
| Lists.FilterAppend | src/components/CalendarView.tsx:232 | filtering a list with one element appended filters the list and then that element |
| Lists.FilterConcat | src/components/RemindersView.tsx:221-228 | filtering two lists joined is joining their filtered lists |
| Lists.FilterInsertAt | src/components/RemindersView.tsx:233-244 | putting an element into a list at a position after which nothing passes the filter puts it, when it passes, at the end of the filtered list, and otherwise changes nothing there |
| Lists.FilterCount | src/components/RemindersView.tsx:253-255 | the length of a filtered list is the number of positions whose element passes the filter |
| Lists.SubsequenceTransitive | src/components/RemindersView.tsx:221-228 | a subsequence of a subsequence is a subsequence, so filters applied one after another keep the list's order |
| Lists.IndexOf | src/components/RemindersView.tsx:212-213 | the first position holding the value: it holds the value and no earlier one does |
| Lists.RemoveAt | src/components/WorldClockView.tsx:353-355 | dropping index `i` leaves the prefix before `i` followed by the suffix after it; an index out of range changes nothing |
| Lists.LastMatch | src/components/ToolsView.tsx:241-245 | a `forEach` that overwrites a slot on each match leaves the last matching element, or the start value when none matches |
| Lists.LastIndex | src/components/ToolsView.tsx:241-245 | the index of the last matching element, with none after it, or -1 |
| Text.Trim | src/components/RemindersView.tsx:43-49 | the result is the input with exactly its leading and trailing white space removed and no white space left at either end |
| Text.TrimUnique | src/components/RemindersView.tsx:43-49 | only one string is the trim of a given string |
| Text.TrimIdempotent | src/components/CalendarView.tsx:51-57 | trimming a trimmed string changes nothing |
| Text.TrimStart | src/components/RemindersView.tsx:49 | the result is a suffix of the input, all removed characters are white space, and the result does not start with white space |
| Text.TrimEnd | src/components/RemindersView.tsx:49 | the result is a prefix of the input, all removed characters are white space, and the result does not end with white space |
| Text.ToLower | src/components/WorldClockView.tsx:181-182 | lower-casing keeps the length and maps each character on its own: capitals to their small letters, all others unchanged |
| Text.LowerChar | src/components/WorldClockView.tsx:181-182 | a capital (ASCII or Latin-1) becomes the code point 32 places later, which is not a capital; a character that is not a capital is unchanged |
| Text.Decimal | src/components/ToolsView.tsx:238 | the decimal text of `n` is all digits, reads back as `n`, has no leading zero, and is one character exactly when `n < 10` |
| Text.PadStart2 | src/components/ToolsView.tsx:238 | padding to two keeps the text as a suffix and fills only with zeros, up to length two |
| Text.TwoDigits | src/components/ToolsView.tsx:427 | a number below 100 padded to two is two digits that read back as the number |
| Text.LexLessIrreflexive | src/components/RemindersView.tsx:264 | no string is `<` itself |
| Text.LexLessTransitive | src/components/RemindersView.tsx:264 | `<` on strings is transitive |
| Text.LexLessTotal | src/components/RemindersView.tsx:264 | of two different strings one is `<` the other |
| Text.LexLessAsymmetric | src/components/RemindersView.tsx:240 | two strings are never each `<` the other |
| Text.LexNotLessTransitive | src/components/RemindersView.tsx:240 | "not before" on strings is transitive, as the sort's comparator needs |
| Text.Join | src/components/ToolsView.tsx:311 | joining no parts gives the empty string and joining one part gives that part |
| Text.JoinSnoc | src/components/ToolsView.tsx:311 | with two parts or more, the join is the join of all but the last part, the separator, and the last part |
| Chronometer.DefaultSortOrderIsNumeric | src/components/ToolsView.tsx:99 | `sort()` without a comparator compares decimal strings, which orders weekdays 0-6 exactly as numbers |
| Chronometer.InsertDay | src/components/ToolsView.tsx:99 | inserting a day adds exactly that day to the multiset of selected days |
| Chronometer.InsertDaySorted | src/components/ToolsView.tsx:99 | inserting into a sorted list keeps it sorted |
| Chronometer.SortDays | src/components/ToolsView.tsx:99 | the sorted selection is sorted and a permutation of its input |
| Chronometer.SortedUnique | src/components/ToolsView.tsx:99 | two sorted lists with the same elements are equal, so the sort's result is determined |
| Chronometer.SortDaysOfSorted | src/components/ToolsView.tsx:99 | sorting a sorted list changes nothing |
| Chronometer.RemoveDay | src/components/ToolsView.tsx:97 | removal drops every copy of the day and keeps all others, each as many times as before, in their order |
| Chronometer.RemoveDayStrict | src/components/ToolsView.tsx:97 | removal keeps a strictly ascending list strictly ascending |
| Chronometer.InsertDayStrict | src/components/ToolsView.tsx:99 | inserting a missing day into a strictly ascending list keeps it strictly ascending |
| Chronometer.ToggleDay | src/components/ToolsView.tsx:95-101 | a day is selected afterwards exactly when it differs from the toggled day and was selected, or is the toggled day and was not; adding a day leaves the list sorted |
| Chronometer.SortAppended | src/components/ToolsView.tsx:99 | appending a missing day and sorting gives a strictly ascending list |
| Chronometer.ToggleDayInvolutive | src/components/ToolsView.tsx:95-101 | on a strictly ascending selection the toggle keeps it strictly ascending, and toggling the same day twice restores it |
| Chronometer.ToggleOffOn | src/components/ToolsView.tsx:96-97 | removing a selected day and adding it back restores the selection |
| Chronometer.ToggleOnOff | src/components/ToolsView.tsx:98-99 | adding an unselected day and removing it again restores the selection |
| Chronometer.Rings | src/components/ToolsView.tsx:241-243 | an alarm goes off when it is active, its time equals the clock text, and it names no day or names the current weekday |
| Chronometer.ClockText | src/components/ToolsView.tsx:238 | the current time text is five characters: two digits for the hour, a colon, and two digits for the minute |
| Chronometer.CheckAlarms | src/components/ToolsView.tsx:236-253 | with no alarm ringing, the triggered alarm is unchanged; otherwise it is a ringing alarm (active, at this time, on this day or on any day) with no ringing alarm after it |
| Chronometer.SaveAlarm | src/components/ToolsView.tsx:264-273 | an edit replaces the data of the entry with the edited id, keeps its id, and leaves every other entry and the length alone; an add appends one entry with the fresh id |
| Chronometer.ToggleAlarm | src/components/ToolsView.tsx:275-277 | only entries with the id change, and only in their `active` flag, which flips |
| Chronometer.ToggleAlarmTwice | src/components/ToolsView.tsx:275-277 | toggling the same id twice restores the list |
| Chronometer.DeleteAlarm | src/components/ToolsView.tsx:279-281 | exactly the entries with other ids remain, each as many times as before, in their order |
| Chronometer.DismissAlarm | src/components/ToolsView.tsx:298-304 | the overlay is cleared; if the triggered alarm does not repeat, the entries with its id are switched off; nothing else changes |
| Chronometer.DismissedOneShotStaysQuiet | src/components/ToolsView.tsx:298-304 | after dismissing a one-shot alarm, no entry with its id rings at any time |
| Chronometer.DismissedRepeatingAlarmRetriggers | src/components/ToolsView.tsx:257-260 | a dismissed repeating alarm is found again by the next check within the same minute |
| Chronometer.SaveKeepsIdsUnique | src/components/ToolsView.tsx:264-273 | saving keeps the alarm ids distinct when the fresh id is new |
| Chronometer.OperationsKeepIdsUnique | src/components/ToolsView.tsx:275-304 | toggling, deleting and dismissing keep the alarm ids distinct |
| Chronometer.FilterUniqueIds | src/components/ToolsView.tsx:280 | a filtered list of alarms with distinct ids has distinct ids |
| Chronometer.GetDaysText | src/components/ToolsView.tsx:306-312 | for a selection the form can produce: "One time" when empty, "Every day" for all seven days, "Weekdays" for Monday to Friday, "Weekends" for Sunday and Saturday, and otherwise the day names joined by commas |
| Chronometer.DaysTextBranches | src/components/ToolsView.tsx:307-310 | on strictly ascending days the count tests of the source single out exactly the lists all days, Monday to Friday, and Sunday plus Saturday |
| Chronometer.TwoDigitInput | src/components/ToolsView.tsx:135 | an hour or minute field holds two characters: the last two typed, with a single digit zero-padded |
| Chronometer.HandleSaveAlarm | src/components/ToolsView.tsx:103-112 | the saved time is `hours:minutes`; an empty label becomes "Alarm"; a new alarm is active and an edited one keeps its state; days and repeat are taken from the form |
| Chronometer.AddedAlarmRingsAtItsTime | src/components/ToolsView.tsx:241-245 | an alarm added for `h:m` rings at `h:m` on every day it names, or on any day if it names none |
| Chronometer.Duration | src/components/ToolsView.tsx:387 | the inputs' duration is below one day, and is zero exactly when all three inputs are zero |
| Chronometer.Format | src/components/ToolsView.tsx:422-430 | the text is `mm:ss` below one hour and `hh:mm:ss` from one hour up; its hour field is the whole hours printed and padded to two digits, its minute and second fields the remaining minutes and seconds, both below 60, so it reads back as the number of seconds formatted |
| Chronometer.ReadsValue | src/components/ToolsView.tsx:422-430 | a clock text whose fields read `h`, `m` and `s` stands for `h*3600 + m*60 + s` seconds |
| Chronometer.HoursClock | src/components/ToolsView.tsx:427 | the `hh:mm:ss` branch is at least eight characters; its hour field is the hours printed and padded to two digits, and its three fields read back as the hours, minutes and seconds given |
| Chronometer.MinutesClock | src/components/ToolsView.tsx:429 | the `mm:ss` branch is five characters, has no hour field, and its two fields read back as the minutes and seconds given |
| Chronometer.FormatShowsInputs | src/components/ToolsView.tsx:467 | while editing, the display shows the three inputs themselves, padded to two digits, and the hours only when they are non-zero |
| Chronometer.FormatTime | src/components/ToolsView.tsx:26-31 | the stopwatch text `mm:ss.cc` reads back as the elapsed milliseconds rounded down to a hundredth of a second; its minute field is the whole minutes printed and padded to two digits, and its second field is below 60 |
| Countdown.Clamp | src/components/ToolsView.tsx:481 | an input takes the allowed value closest to the number typed, and 0 when no number was typed |
| Countdown.PresetsAreNonZero | src/components/ToolsView.tsx:537-544 | every quick-select preset sets a duration above zero |
| Countdown.TimerTool.constructor | src/components/ToolsView.tsx:379-385 | the timer starts at 00:05:00 in the inputs, editing, not running and not complete |
| Countdown.TimerTool.SetHours | src/components/ToolsView.tsx:481 | typing hours stores the clamped value in [0, 23] and keeps the timer invariant |
| Countdown.TimerTool.SetMinutes | src/components/ToolsView.tsx:493 | typing minutes stores the clamped value in [0, 59] and keeps the timer invariant |
| Countdown.TimerTool.SetSeconds | src/components/ToolsView.tsx:505 | typing seconds stores the clamped value in [0, 59] and keeps the timer invariant |
| Countdown.TimerTool.ApplyPreset | src/components/ToolsView.tsx:547 | a preset sets the three inputs to its values, leaves a duration the Start button accepts, and keeps the invariant |
| Countdown.TimerTool.Start | src/components/ToolsView.tsx:407-413 | at zero duration nothing changes; otherwise the count starts at the duration, running, inputs hidden, not complete |
| Countdown.TimerTool.Tick | src/components/ToolsView.tsx:389-405 | one interval firing takes a running positive count down by exactly one; the effect's re-run at a running count of zero stops and completes the timer, with the sound; a paused timer does not change; the count never goes negative |
| Countdown.TimerTool.RunOut | src/components/ToolsView.tsx:389-405 | a running count of `n` completes after `n` interval firings and the re-run at zero, `n + 1` ticks in all, and the sound plays exactly once |
| Countdown.TimerTool.Pause | src/components/ToolsView.tsx:527 | pausing stops the timer and changes nothing else |
| Countdown.TimerTool.Resume | src/components/ToolsView.tsx:525 | resuming runs the timer and changes nothing else |
| Countdown.TimerTool.Reset | src/components/ToolsView.tsx:415-420 | reset stops the timer, clears the count, shows the inputs and clears completion, keeping the inputs |
| Countdown.TimerTool.Display | src/components/ToolsView.tsx:467 | the display is a clock text with minute and second fields below 60; it reads back as the set duration while editing and as the remaining count once started, it is `mm:ss` exactly when that value is below one hour, its fields read back as that value's hours, minutes and seconds, and in the `hh:mm:ss` form its hour field is the whole hours printed and padded to two digits |
| Reminders.NonEmpty | src/components/RemindersView.tsx:52-54 | an optional field is absent exactly when its input is the empty string, and otherwise holds the input itself |
| Reminders.HandleSave | src/components/RemindersView.tsx:42-58 | blank text saves nothing. Otherwise the text is saved trimmed and non-empty. The completed flag and the date come from the edited reminder, or false and today for a new one. Empty due date and category become absent. The priority comes from the form |
| Reminders.SaveUnchangedEdit | src/components/RemindersView.tsx:26-37 | opening a reminder for editing and saving without changes gives back the same reminder |
| Reminders.SaveReminder | src/components/RemindersView.tsx:176-185 | an edit replaces the data of the entry with the edited id, keeps its id, and leaves every other entry and the length alone; an add puts the new reminder with the fresh id at the front, followed by the old list unchanged |
| Reminders.ToggleReminder | src/components/RemindersView.tsx:187-189 | only entries with the id change, and only in `completed`, which flips |
| Reminders.ToggleReminderTwice | src/components/RemindersView.tsx:187-189 | toggling the same id twice restores the list |
| Reminders.DeleteReminder | src/components/RemindersView.tsx:191-193 | exactly the entries with other ids remain, each as many times as before, in their order |
| Reminders.OperationsKeepIdsUnique | src/components/RemindersView.tsx:176-193 | save (with a fresh id), toggle and delete keep the reminder ids distinct |
| Reminders.FilterUniqueIds | src/components/RemindersView.tsx:192 | a filtered list of reminders with distinct ids has distinct ids |
| Reminders.Categories | src/components/RemindersView.tsx:212 | the collected categories are exactly the non-empty categories of the reminders |
| Reminders.CategoriesConcat | src/components/RemindersView.tsx:212 | the categories of two lists joined are those of the first list followed by those of the second, so they come in list order |
| Reminders.CategoriesOfOne | src/components/RemindersView.tsx:212 | one reminder contributes its category when it is present and non-empty, and nothing otherwise |
| Reminders.Distinct | src/components/RemindersView.tsx:212-213 | a `Set` round trip keeps exactly the same members, each once, in the order of their first occurrence |
| Reminders.UsedCategories | src/components/RemindersView.tsx:211-214 | every non-empty category in use appears exactly once, nothing else does, and they come in the order of their first use in the list |
| Reminders.LocaleCompare | src/components/RemindersView.tsx:240 | the comparison is negative exactly when the first string sorts first and positive exactly when the second does |
| Reminders.Compare | src/components/RemindersView.tsx:231-244 | the comparator is negative exactly when the first reminder goes first and positive exactly when the second does: open before done; then the higher priority, or a dated reminder before an undated one and the earlier date first |
| Reminders.Precedes | src/components/RemindersView.tsx:231-244 | one reminder goes before another exactly when the comparator of the chosen order is negative for the pair |
| Reminders.PrecedesAsymmetric | src/components/RemindersView.tsx:231-244 | under either sort order, two reminders never each come before the other |
| Reminders.NotPrecedesTransitive | src/components/RemindersView.tsx:231-244 | "does not come before" is transitive under either sort order, so the comparators are consistent |
| Reminders.SortedMeansInViewOrder | src/components/RemindersView.tsx:231-244 | in a sorted list, incomplete reminders come before completed ones. Within a group, priority order is high, medium, low; due-date order puts dated reminders first, in ascending date order |
| Reminders.InsertKeepsSorted | src/components/RemindersView.tsx:233-244 | inserting a reminder after the last one it does not precede keeps the list sorted |
| Reminders.TiedTransitive | src/components/RemindersView.tsx:231-244 | two reminders the comparator ties with a third are tied with each other |
| Reminders.InsertKeepsTies | src/components/RemindersView.tsx:233-244 | inserting a reminder before everything it precedes puts it at the end of the reminders it is tied with and leaves every other group of tied reminders as it was |
| Reminders.InsertStep | src/components/RemindersView.tsx:233-244 | one insertion step turns a sorted permutation of the first `i` reminders into one of the first `i + 1` |
| Reminders.InsertStepTies | src/components/RemindersView.tsx:233-244 | one insertion step keeps every group of tied reminders in its input order |
| Reminders.SortReminders | src/components/RemindersView.tsx:233-244 | the sort returns a permutation of its input, sorted by the chosen comparator, and stable: the reminders tied with any given one come in the same order as in the input |
| Reminders.Shown | src/components/RemindersView.tsx:220-228 | a reminder survives the filters when it is open for the active filter, done for the completed filter, has the chosen priority and has the chosen category; the value `all` switches a filter off |
| Reminders.Narrow | src/components/RemindersView.tsx:221-228 | each filter of the view keeps the reminders passing it, with their multiplicities, and what is left keeps the list's order |
| Reminders.FilteredReminders | src/components/RemindersView.tsx:217-248 | the shown list holds exactly the reminders that pass the status, priority and category filters, with their multiplicities; every pair is in the view's order; reminders the order ties appear in their order in the list |
| Reminders.StatsOf | src/components/RemindersView.tsx:251-256 | `total` is the list length; `active`, `completed` and `highPriority` are the numbers of positions holding an open reminder, a done one, and an open high-priority one; `active + completed == total` and `highPriority <= active` |
| Reminders.CountsOfStats | src/components/RemindersView.tsx:253-255 | each of the three counting filters keeps one reminder per position whose reminder passes it |
| Reminders.GetDueDateText | src/components/RemindersView.tsx:258-266 | "Due today" exactly for today's date, "Due tomorrow" exactly for tomorrow's, "Overdue" exactly for dates before today, and otherwise the date itself, which is not before today |
| Calendar.DaysInMonth | src/components/CalendarView.tsx:177-178 | a month has 28 to 31 days, and 29 exactly for February of a leap year |
| Calendar.DayOfWeek | src/components/CalendarView.tsx:179 | `getDay()` is a column 0 (Sunday) to 6 (Saturday) |
| Calendar.KnownWeekdays | src/components/CalendarView.tsx:179 | 1 January 1970 is a Thursday and 1 January 2000 a Saturday |
| Calendar.YearLength | src/components/CalendarView.tsx:176-178 | a year has 366 days when leap and 365 otherwise |
| Calendar.NavigateMonth | src/components/CalendarView.tsx:216-220 | the month stays in [0, 11] and `year*12 + month` moves by exactly `delta` |
| Calendar.MonthIndexInjective | src/components/CalendarView.tsx:216-220 | a year and month are determined by `year*12 + month` |
| Calendar.NavigateTwice | src/components/CalendarView.tsx:216-220 | navigating by `a` and then by `b` is navigating by `a + b`, so Previous undoes Next |
| Calendar.MonthStep | src/components/CalendarView.tsx:202-204 | the first of the next month comes exactly the current month's length after the first of this one |
| Calendar.GridIsConsecutive | src/components/CalendarView.tsx:175-209 | each of the 42 cells is a valid date, and cell `i` is `i` days after the Sunday that opens the grid |
| Calendar.GridColumnIsWeekday | src/components/CalendarView.tsx:175-209 | cell `i` falls on weekday `i mod 7`, so every cell sits under its own weekday heading |
| Calendar.CalendarDays | src/components/CalendarView.tsx:175-209 | the grid has exactly 42 cells: the previous month's last days, then the month's days 1 to n marked current, then the next month's days; a cell is marked current exactly in the month's range |
| Calendar.HandleSave | src/components/CalendarView.tsx:50-58 | a blank title saves nothing. Otherwise the title is saved trimmed and non-empty. The date and priority come from the form, and an empty time becomes absent. The description is absent exactly when blank, otherwise it is saved trimmed |
| Calendar.GetEventsForDate | src/components/CalendarView.tsx:212-214 | exactly the events on that date, each with its multiplicity, in list order |
| Calendar.AddEvent | src/components/CalendarView.tsx:228-235 | an edit replaces the data of the entry with the edited id, keeps its id, and leaves every other entry and the length alone; an add appends one event with the fresh id |
| Calendar.DeleteEvent | src/components/CalendarView.tsx:237-239 | exactly the events with other ids remain, each as many times as before, in their order |
| Calendar.DeleteUndoesAdd | src/components/CalendarView.tsx:228-239 | deleting an event just added with a fresh id restores the list |
| WorldClock.AllCities | src/components/WorldClockView.tsx:109 | the flattened list has the summed length of the regions and holds exactly the cities of some region |
| WorldClock.AllCitiesSegment | src/components/WorldClockView.tsx:109 | each region's cities form one unbroken run of the flattened list, in their own order, right after the cities of the regions before it |
| WorldClock.CityDatabaseSize | src/components/WorldClockView.tsx:6-106 | the database has 6 regions and 87 cities |
| WorldClock.RegionCities | src/components/WorldClockView.tsx:187 | a region's lookup is absent exactly when no region has that name, and otherwise gives that region's cities |
| WorldClock.AddCity | src/components/WorldClockView.tsx:347-351 | a city whose name is already listed changes nothing, any other is appended, and the list never gains a duplicate name |
| WorldClock.RemoveCity | src/components/WorldClockView.tsx:353-355 | removal drops exactly the city at that index and keeps the others in order; an index out of range changes nothing; distinct names stay distinct |
| WorldClock.MatchesQuery | src/components/WorldClockView.tsx:180-182 | a city matches when its lower-cased name or its lower-cased region contains the lower-cased, untrimmed query |
| WorldClock.GetFilteredCities | src/components/WorldClockView.tsx:178-192 | in search mode with a non-blank query: the cities whose lowercased name or region contains the lowercased query. In region mode: that region's cities. Otherwise: nothing. Cities already added are always excluded. The results keep the order of the list they are taken from |
| WorldClock.AvailableCount | src/components/WorldClockView.tsx:270-272 | the count is the number of the region's cities not yet added, so it never exceeds the region's size |
| WorldClock.PickedCityIsAdded | src/components/WorldClockView.tsx:347-351 | a city picked from the filtered results is always appended by `addCity` |
| WorldClock.HandleSearchChange | src/components/WorldClockView.tsx:202-210 | the query is stored. A non-blank query switches to search and clears the region. A blank one switches to browse and keeps the region |
| Weather.CodeListsDisjoint | src/services/weatherService.ts:9-21 | no code is in two of the lists, and code 1000 is in none |
| Weather.MapConditionToIcon | src/services/weatherService.ts:7-24 | 1000 maps to sun whatever `isDay` is. Codes in the rain, storm and snow lists map to those icons, and only they do. Cloud-list codes and every other code map to cloud |
| Weather.IconNamed | src/services/weatherService.ts:61 | the lookup finds the icon with exactly that name, if there is one |
| Weather.Lines | src/services/weatherService.ts:28-59 | every icon has four description lines |
| Weather.GenerateDescription | src/services/weatherService.ts:61-62 | the description is one of the condition's lines, or one of the cloud lines for an unknown condition |
| Weather.DescriptionIgnoresTemperature | src/services/weatherService.ts:27-63 | the temperature does not affect the description |
| Weather.ForecastOf | src/services/weatherService.ts:90-99 | one forecast entry per day, in order, with the day's name, average temperature and daytime icon |
| Weather.BuildWeather | src/services/weatherService.ts:84-113 | with no forecast day there is no result. Otherwise the city is `name, country` and the condition is the current code's icon. Temperature, humidity and wind speed come from the current conditions; high and low from the first day. The description is one of the condition's lines, and the forecast is the day list mapped entry by entry |

## Left out

- Rendering, modal open and close flags, CSS classes, and the view switching in src/App.tsx and src/components/Sidebar.tsx.
- Audio playback when an alarm rings or the timer completes: a browser API. `Countdown.TimerTool.Tick` reports the moment it would play.
- `setInterval` scheduling and React's effect re-runs. One firing of the alarm check's interval is one call to `CheckAlarms`. A `TimerTool.Tick` at a positive count is one firing of the timer's interval. The `Tick` at zero is the effect's immediate re-run once the count reaches zero, so `n` firings and that re-run make `n + 1` ticks. `TimerTool.RunOut` repeats `Tick` until the timer stops.
- The stopwatch's `Date.now()` polling and its start/stop state. Only its formatter `formatTime` is modelled.
- Clock reading (`new Date()`, `getHours`, `getDay`): the current time and weekday are parameters.
- Locale text (`toLocaleDateString`, `toLocaleTimeString`, `toLocaleString`): time zones, the offset string, reminder dates, forecast day names and the "Due …" date text are inputs or carried as the raw date.
- `toISOString`: the "today" and "tomorrow" strings are parameters. The calendar's ISO date strings are not derived from grid cells.
- Floating point: the timer's progress ratio and SVG arc, and `Math.round` of temperatures (taken as already-rounded integers). The progress ratio is replaced by the invariant that a started count never exceeds its duration.
- Latitude and longitude of the cities: they are only used for display.
- The network: `fetch`, the missing API key, HTTP errors and malformed responses. `Weather.BuildWeather` models only the successful response and the empty forecast that makes the `catch` return null. Geolocation, reverse geocoding and the AI client are not part of this model.
- `Math.random`: the description index is a parameter `pick < 4`.
- Id generation with `Date.now().toString()`: a fresh-id parameter stands in for it, and uniqueness is proved only when the fresh id is new.
- The JavaScript `Date` constructor's mapping of years 0-99 to 1900-1999, and dates outside the proleptic Gregorian calendar.
- `Weather.IconNamed`: inherited object keys such as `constructor` are not looked up. Only the five own keys of the description table are.
- `Text.ToLower`: case mapping covers ASCII and Latin-1 capitals only, not the rest of Unicode.
- `Text.LexLess`: string `<` compares whole code points, not UTF-16 code units. The two differ only for characters outside the Basic Multilingual Plane.
- `Reminders.LocaleCompare`: `localeCompare` is modelled as code-point order. The ISO `YYYY-MM-DD` dates it compares order the same way under any collation.
- `Reminders.SortReminders`: the sort is an insertion sort over a sequence value, not `Array.prototype.sort` in place. It is stable, as the ECMAScript specification has required of `Array.prototype.sort` since its 2019 edition.
- `Chronometer.SortDays`: sorting is by a verified insertion sort. Its result is unique (`Chronometer.SortedUnique`), so it equals whatever the engine's sort returns.
- `Chronometer.CheckAlarms`: it takes the clock text and the weekday. `Chronometer.ClockText` and `Chronometer.Triggers` connect these to the hour and minute.
- `Chronometer.GetDaysText`: the caption is stated for strictly ascending day lists, the only ones the weekday toggle produces.
- `WorldClock.GetFilteredCities`: it requires a selected region to exist in the database. A missing key would throw in the source, and the picker only offers the database's keys.
- `WorldClock.AvailableCount`: it requires the region to exist, for the same reason.
- `Countdown.TimerTool.Resume`: it requires the inputs to be hidden, because the Resume button renders only then.
- `Countdown.TimerTool.SetHours`, `Countdown.TimerTool.SetMinutes`, `Countdown.TimerTool.SetSeconds` and `Countdown.TimerTool.ApplyPreset`: they require the inputs to be shown, because those controls render only then.
- The alarm form's label and repeat inputs, and the reminder and event modals' other inputs, are plain field updates and are not modelled as operations.
