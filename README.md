# Family schedule: a verified model of the calendar and bot logic

This project models the deterministic core of a family calendar web app and its
Telegram bot in Dafny, and proves properties about it. Four parts of the
system are covered:

- **The calendar component.** This covers:
  - the day-window filter;
  - the pairwise conflict detector;
  - the visible hour range;
  - the overlap layout: sort, sweep into overlap groups, first-fit columns, stamping;
  - the week strip;
  - the person filter;
  - the duration-keeping drag-and-drop move;
  - the component state with its navigation, view, expansion, filter and category handlers.
- **The notification helpers.** This covers:
  - HTML escaping;
  - the reminder lead-time label;
  - the new-event announcement parts and the choice of target chats;
  - the daily digest, with its lines and per-person summary.
- **The reminder cron job.** This covers the DISABLE_CRON_JOBS switch, the half-open six-minute due window, the selection loop, the labels and the reported counts.
- **The Telegram webhook.** This covers:
  - callback, voice and text routing;
  - the command table with its optional `@bot` suffix;
  - `delete_event:` parsing;
  - the add-event flow: JSON extraction, end-date default, timezone suffix, the stored row and the confirmation;
  - the weekly digest grouped by weekday.

Timestamps are integers in milliseconds, read as local wall-clock time in one
fixed zone without daylight saving time. Days are 86 400 000 ms. The hour, the
minute and the weekday are derived with Euclidean division, with 1 January 1970
a Thursday. Month arithmetic (`addMonths`/`subMonths`), the JSON parser and the date-time parser are
parameters of the members that need them. Storage, Telegram, OpenAI and the
clock are outside the model: what they return becomes an argument.

Modules (one file each):

- `Wrappers` (`wrappers.dfy`): `Option`.
- `FamilyEvents` (`events.dfy`): the event record, the time helpers, `Filter`, and the stable sort by start.
- `Text` (`text.dfy`): the JavaScript-style `trim`, prefix tests, `replace` of the first occurrence, decimal rendering and `padStart`.
- `Schedule` (`schedule.dfy`): the component's helper functions.
- `Layout` and `LayoutProofs` (`layout.dfy`, `layout_proofs.dfy`): the layout algorithm as functions and as the source's loops, with the properties proved about it.
- `CalendarView` (`calendar_view.dfy`): the component state as a class.
- `TelegramFamily` (`telegram_family.dfy`), `CheckReminders` (`check_reminders.dfy`) and `TelegramWebhook` (`telegram_webhook.dfy`): the server side.

Where the code loops and updates local state, the model is a method with a loop. It is proved equal to a specification function, and the properties are proved about that function:

- `findConflicts` and `getHoursRange`;
- the layout's sweep, first-fit placement and stamping;
- the `personCounts` dictionary;
- the reminder selection;
- the `byDay` dictionary of the weekly digest.

## Model

| member | source | states |
|---|---|---|
| FamilyEvents.HourOf | src/app/family-schedule/FamilyScheduleClient.tsx:111-113 | `getHours` of an instant lies in 0..23 |
| FamilyEvents.MinuteOf | src/app/family-schedule/FamilyScheduleClient.tsx:113-114 | `getMinutes` of an instant lies in 0..59 |
| FamilyEvents.DayStart | src/app/family-schedule/FamilyScheduleClient.tsx:85 | `startOfDay`: the midnight at or before the instant, less than a day before it |
| FamilyEvents.DayEnd | src/app/family-schedule/FamilyScheduleClient.tsx:86 | `endOfDay`: the last millisecond of the same day, at or after the instant |
| FamilyEvents.Weekday | src/lib/telegram-family.ts:67 | `getDay` lies in 0..6 (0 is Sunday) |
| FamilyEvents.Filter | src/app/family-schedule/FamilyScheduleClient.tsx:87-91 | `Array.filter`: exactly the elements satisfying the predicate, no more than the input |
| FamilyEvents.FilterIsSubsequence | src/app/family-schedule/FamilyScheduleClient.tsx:87-91 | a filter keeps the input order (its result is a subsequence of the input) |
| FamilyEvents.InsertByStart | src/app/family-schedule/FamilyScheduleClient.tsx:127 | one insertion step of the sort: the multiset grows by the element, and sortedness is kept |
| FamilyEvents.SortByStart | src/app/family-schedule/FamilyScheduleClient.tsx:127 | the sort of a copy by start time: a permutation of the input, sorted by start |
| FamilyEvents.SortByStartIsStable | src/lib/telegram-family.ts:113 | the sort is stable: events with equal starts keep their relative input order |
| Text.LeadingSpace | src/app/api/family/telegram-webhook/route.ts:45 | the white-space prefix `trim` removes, up to the first non-space character |
| Text.TrailingSpace | src/app/api/family/telegram-webhook/route.ts:45 | the white-space suffix `trim` removes |
| Text.Trim | src/app/api/family/telegram-webhook/route.ts:45 | `trim` returns the infix between an all-space prefix and an all-space suffix, and it neither starts nor ends with white space |
| Text.TrimIdempotent | src/app/api/family/telegram-webhook/route.ts:45 | trimming twice is trimming once |
| Text.TrimOfTrimmed | src/app/family-schedule/FamilyScheduleClient.tsx:671-672 | text without surrounding white space is unchanged by `trim` |
| Text.IndexOfFrom | src/app/api/family/telegram-webhook/route.ts:24 | `indexOf` from a position: the first occurrence at or after it, or none at all |
| Text.ReplacePrefixStrips | src/app/api/family/telegram-webhook/route.ts:23-24 | when the data starts with the prefix, replacing its first occurrence by nothing leaves exactly the text after the prefix |
| Text.NatToString | src/app/api/family/telegram-webhook/route.ts:203 | `String(n)`: decimal digits, no leading zero, one digit exactly below 10 |
| Text.NatToStringRoundTrip | src/app/api/family/telegram-webhook/route.ts:203 | reading the digits back gives the number |
| Text.PadStartZeros | src/app/api/family/telegram-webhook/route.ts:203 | `padStart(width, '0')`: zeros in front up to the width, the text kept as the suffix |
| Text.PadStartZerosValue | src/app/api/family/telegram-webhook/route.ts:203 | zero padding keeps the decimal value |
| Schedule.EventsForDay | src/app/family-schedule/FamilyScheduleClient.tsx:84-92 | exactly the events with start ≤ end of day and end ≥ start of day, both bounds inclusive |
| Schedule.EventsForDayKeepsOrder | src/app/family-schedule/FamilyScheduleClient.tsx:87-91 | the day's events keep the input order |
| Schedule.EventsForDayAppend | src/app/family-schedule/FamilyScheduleClient.tsx:87-91 | the filter distributes over concatenation |
| Schedule.FindConflicts | src/app/family-schedule/FamilyScheduleClient.tsx:94-105 | an id is in the result iff it belongs to an event that strictly overlaps another one, where both share a person or one is the whole family |
| Schedule.ClashFlagsBoth | src/app/family-schedule/FamilyScheduleClient.tsx:101 | a clashing pair flags both of its events |
| Schedule.NoClashAcrossPeopleOrTouching | src/app/family-schedule/FamilyScheduleClient.tsx:98-101 | two different people neither of whom is the whole family never clash, and neither do touching intervals |
| Schedule.EndHourRounded | src/app/family-schedule/FamilyScheduleClient.tsx:112-113 | an end with non-zero minutes counts as the next hour, so at most 24 |
| Schedule.LowestHour | src/app/family-schedule/FamilyScheduleClient.tsx:110-115 | the fold's minimum of start and end hours, from 23 |
| Schedule.HighestHour | src/app/family-schedule/FamilyScheduleClient.tsx:110-115 | the fold's maximum of start hours and rounded end hours, from 0 |
| Schedule.LowestHourIsMinimum | src/app/family-schedule/FamilyScheduleClient.tsx:110-115 | the minimum is below every start and end hour and is attained by some event |
| Schedule.HighestHourIsMaximum | src/app/family-schedule/FamilyScheduleClient.tsx:110-115 | the maximum is above every start and rounded end hour and is attained by some event |
| Schedule.HoursRange | src/app/family-schedule/FamilyScheduleClient.tsx:107-120 | 0 ≤ min ≤ max ≤ 23; the hours run consecutively from min to max; the bounds are 8/18 without events, expanded and clamped; the span is at least 6 when min ≤ 17; the expand flags; every event's start hour fits |
| Schedule.WeekDates | src/app/family-schedule/FamilyScheduleClient.tsx:79-82 | seven consecutive midnights from the Sunday of the date's week, weekday k at index k, and the date falls within them |
| Schedule.WeekDayFacts | src/app/family-schedule/FamilyScheduleClient.tsx:80-81 | the k-th day after that Sunday is a midnight with weekday k |
| Schedule.FilteredEvents | src/app/family-schedule/FamilyScheduleClient.tsx:709 | an event is shown iff its person is selected, or it is for the whole family and someone is selected; with nobody selected, nothing is shown |
| Schedule.DifferenceInMinutes | src/app/family-schedule/FamilyScheduleClient.tsx:740 | whole minutes between two instants, truncated toward zero in both directions |
| Schedule.DropAt | src/app/family-schedule/FamilyScheduleClient.tsx:739-742 | the dropped event keeps all other fields, starts on the target day at hour:00 (keeping the date's seconds), and its new duration is exactly `differenceInMinutes(end, start)` whole minutes, so within a minute of the old one and equal to it for whole-minute durations |
| Schedule.AtHourFacts | src/app/family-schedule/FamilyScheduleClient.tsx:741 | `setMinutes(setHours(d, h), 0)` stays on the day, at hour h and minute 0, and keeps seconds and milliseconds |
| Layout.SweepAll | src/app/family-schedule/FamilyScheduleClient.tsx:129-145 | the sweep's closed groups followed by the current group give back the sorted input, and the running end is the current group's latest end |
| Layout.Groups | src/app/family-schedule/FamilyScheduleClient.tsx:129-146 | the groups are non-empty, and flattened they are the sorted input |
| Layout.FirstFreeColumn | src/app/family-schedule/FamilyScheduleClient.tsx:150-155 | the first column whose last event ends at or before the event's start, every earlier column still busy |
| Layout.Place | src/app/family-schedule/FamilyScheduleClient.tsx:148-156 | first-fit placement keeps columns non-empty and opens at most one new column |
| Layout.Columns | src/app/family-schedule/FamilyScheduleClient.tsx:147-157 | the columns are non-empty, at most one per event, and at least one for a non-empty group |
| Layout.StampColumn | src/app/family-schedule/FamilyScheduleClient.tsx:160 | one stamped item per event of the column |
| Layout.PlaceEvent | src/app/family-schedule/FamilyScheduleClient.tsx:148-156 | the `placed` loop equals first-fit placement |
| Layout.AssignColumns | src/app/family-schedule/FamilyScheduleClient.tsx:146-157 | the column loop over a group equals `Columns` |
| Layout.GroupEvents | src/app/family-schedule/FamilyScheduleClient.tsx:129-145 | the sweep loop with `currentGroup` and `groupEnd` equals `Groups` |
| Layout.StampGroup | src/app/family-schedule/FamilyScheduleClient.tsx:158-161 | the stamping loops equal `StampColumns` |
| Layout.LayoutOverlappingEvents | src/app/family-schedule/FamilyScheduleClient.tsx:125-164 | the whole procedure equals `LayoutOf(events)`, which does not depend on `minHour` |
| LayoutProofs.LayoutIsPermutation | src/app/family-schedule/FamilyScheduleClient.tsx:125-164 | the layout has one item per input event, and its events are a permutation of the input (empty for empty input) |
| LayoutProofs.ColumnsPermutation | src/app/family-schedule/FamilyScheduleClient.tsx:147-157 | first-fit placement loses and duplicates no event |
| LayoutProofs.LayoutGroupShape | src/app/family-schedule/FamilyScheduleClient.tsx:158-160 | every item of a group carries the group's column count, and its column is below it |
| LayoutProofs.LayoutColumnBounds | src/app/family-schedule/FamilyScheduleClient.tsx:158-161 | every item has 0 ≤ col < totalCols |
| LayoutProofs.ColumnsAreChains | src/app/family-schedule/FamilyScheduleClient.tsx:152-153 | within a column, each event starts at or after the end of the one before |
| LayoutProofs.ColumnNoOverlap | src/app/family-schedule/FamilyScheduleClient.tsx:152-153 | two events of the same column never strictly overlap (events with start ≤ end) |
| LayoutProofs.LayoutGroupPlacement | src/app/family-schedule/FamilyScheduleClient.tsx:147-160 | every laid-out item's `col` is the column first-fit placed its event in, below the group's column count |
| LayoutProofs.LayoutGroupNoOverlap | src/app/family-schedule/FamilyScheduleClient.tsx:147-160 | on the items a group is laid out to: two distinct items with the same `col` never strictly overlap, the earlier ending no later than the later starts (events with start ≤ end) |
| LayoutProofs.JoinStepOk | src/app/family-schedule/FamilyScheduleClient.tsx:135-137 | an event starting before the running end joins the group, and the sweep invariant is kept |
| LayoutProofs.CloseStepOk | src/app/family-schedule/FamilyScheduleClient.tsx:138-141 | an event starting at or after the running end closes the group, and the invariant is kept |
| LayoutProofs.SweepAllOk | src/app/family-schedule/FamilyScheduleClient.tsx:132-145 | the sweep invariant holds at the end: groups joined inside and separated at every boundary |
| LayoutProofs.GroupsSplit | src/app/family-schedule/FamilyScheduleClient.tsx:133-145 | each group is chained by starts before its running end, and each next group starts at or after the previous group's latest end |
| LayoutProofs.GroupsTimeDisjoint | src/app/family-schedule/FamilyScheduleClient.tsx:133-145 | every event of an earlier group ends at or before every event of a later group starts |
| LayoutProofs.IsolatedGroup | src/app/family-schedule/FamilyScheduleClient.tsx:133-145 | an event that occurs once and overlaps nothing forms a group of its own (every event of the day with start < end) |
| LayoutProofs.IsolatedEventFullWidth | src/app/family-schedule/FamilyScheduleClient.tsx:125-164 | such an event is laid out at column 0 of 1 (every event of the day with start < end) |
| LayoutProofs.TwoEventLayout | src/app/family-schedule/FamilyScheduleClient.tsx:125-164 | an event followed by one starting no earlier and before it ends gives one group of two columns, the first at column 0 of 2 and the second at column 1 of 2 |
| LayoutProofs.ZeroLengthEventHalvesWidth | src/app/family-schedule/FamilyScheduleClient.tsx:133-155 | a zero-length event at an event's start, after it in input order, overlaps nothing and the event occurs once, yet the event is not laid out at column 0 of 1 |
| CalendarView.SteppedRoundTrip | src/app/family-schedule/FamilyScheduleClient.tsx:718-729 | in day and week view, forward then back (or back then forward) returns to the same instant |
| CalendarView.SteppedKeepsClock | src/app/family-schedule/FamilyScheduleClient.tsx:719-726 | a day or week step keeps the hour, minute and seconds; a week step keeps the weekday, and a day step moves it by one |
| CalendarView.Toggle | src/app/family-schedule/FamilyScheduleClient.tsx:731 | toggling flips membership of that person only |
| CalendarView.ToggleTwice | src/app/family-schedule/FamilyScheduleClient.tsx:731 | toggling twice restores the selection |
| CalendarView.WithCategoryOk | src/app/family-schedule/FamilyScheduleClient.tsx:670-675 | adding keeps the custom categories trimmed, non-empty, distinct and apart from the defaults; it grows them by at most one; a non-blank name is a category afterwards |
| CalendarView.WithCategoryIdempotent | src/app/family-schedule/FamilyScheduleClient.tsx:670-675 | adding the same category twice is adding it once |
| CalendarView.CalendarState.constructor | src/app/family-schedule/FamilyScheduleClient.tsx:644-662 | first render: week view, now, no expansion, every member and the whole family selected, no custom categories |
| CalendarView.CalendarState.SetView | src/app/family-schedule/FamilyScheduleClient.tsx:684 | the view changes, and the expansions are reset only when the view actually changes |
| CalendarView.CalendarState.NavBack | src/app/family-schedule/FamilyScheduleClient.tsx:718-723 | back one day, week or month by the view, both expansions reset, everything else unchanged |
| CalendarView.CalendarState.NavForward | src/app/family-schedule/FamilyScheduleClient.tsx:724-729 | forward one day, week or month by the view, both expansions reset, everything else unchanged |
| CalendarView.CalendarState.GoToday | src/app/family-schedule/FamilyScheduleClient.tsx:769 | "today" sets the date only; the expansions are kept |
| CalendarView.CalendarState.SelectDayFromMonth | src/app/family-schedule/FamilyScheduleClient.tsx:796 | clicking a day in month view shows that day in day view |
| CalendarView.CalendarState.ExpandEarlier | src/app/family-schedule/FamilyScheduleClient.tsx:884 | the earlier-hours button adds exactly 2 to `expandStart` |
| CalendarView.CalendarState.ExpandLater | src/app/family-schedule/FamilyScheduleClient.tsx:898 | the later-hours button adds exactly 2 to `expandEnd` |
| CalendarView.CalendarState.TogglePerson | src/app/family-schedule/FamilyScheduleClient.tsx:731 | the selection is toggled for that person, and nothing else changes |
| CalendarView.CalendarState.AddCustomCat | src/app/family-schedule/FamilyScheduleClient.tsx:670-675 | the trimmed name is appended unless it is blank or already a category, and the category invariant is kept |
| CalendarView.CalendarState.VisibleHours | src/app/family-schedule/FamilyScheduleClient.tsx:713-716 | the hour range of the filtered events (of the current day in day view) with the current expansions: the bounds, the hours list minHour..maxHour and both expand flags |
| TelegramFamily.ReplaceAll | src/lib/telegram-family.ts:32 | a global replacement of one character leaves none of it when the replacement lacks it, and adds no character of its own |
| TelegramFamily.EscapeHtmlIsEscapeEach | src/lib/telegram-family.ts:31-33 | the three chained replacements equal escaping character by character, because '&' goes first |
| TelegramFamily.EscapeHtmlNoBrackets | src/lib/telegram-family.ts:31-33 | the output contains no '<' and no '>' |
| TelegramFamily.EscapeHtmlIdentity | src/lib/telegram-family.ts:31-33 | text without '&', '<' and '>' is unchanged |
| TelegramFamily.EscapeHtmlLength | src/lib/telegram-family.ts:31-33 | output length is n + 4·#& + 3·#< + 3·#> |
| TelegramFamily.EscapeHtmlAmpersands | src/lib/telegram-family.ts:31-33 | every '&' of the output starts `&amp;`, `&lt;` or `&gt;` |
| TelegramFamily.EscapeHtmlNotIdempotent | src/lib/telegram-family.ts:31-33 | escaping twice differs from escaping once |
| TelegramFamily.UnescapeEscapeHtml | src/lib/telegram-family.ts:31-33 | decoding the three entities gives back the original text |
| TelegramFamily.ReminderBucket | src/lib/telegram-family.ts:73-76 | the thresholds: a day from 1440, hours from 120, an hour from 60, else minutes, each carrying the lead time |
| TelegramFamily.ReminderBucketMonotone | src/lib/telegram-family.ts:73-76 | a longer lead time never gets a finer label |
| TelegramFamily.ReminderLine | src/lib/telegram-family.ts:71-78 | the reminder line appears iff the lead time is present and non-zero, and it carries that bucket |
| TelegramFamily.NotesLine | src/lib/telegram-family.ts:79 | the notes line appears iff the notes are non-empty, and it holds them escaped, without '<' |
| TelegramFamily.NewEventMessageOf | src/lib/telegram-family.ts:64-79 | the announced title and person are `escapeHtml` of the event's (no '<', decoding back to the originals); the weekday is the start's weekday; the reminder line is present iff the lead time is truthy and then carries its bucket; the notes line is the escaped notes iff they are non-empty |
| TelegramFamily.TargetChats | src/lib/telegram-family.ts:81 | the configured chats minus the excluded one, all of them when there is no exclusion |
| TelegramFamily.TargetChatsKeepOrder | src/lib/telegram-family.ts:81 | the targets keep the configured order |
| TelegramFamily.PlanNotification | src/lib/telegram-family.ts:62-82 | not configured iff there is no token or no chat; nothing to send iff every chat is excluded; otherwise send to the targets |
| TelegramFamily.NotifyResult | src/lib/telegram-family.ts:62-97 | false when not configured, true with nothing to send, otherwise true iff every request succeeded |
| TelegramFamily.Lines | src/lib/telegram-family.ts:114-119 | one digest line per event, in the given order |
| TelegramFamily.FirstAppearance | src/lib/telegram-family.ts:121-123 | the distinct person names in order of first appearance, exactly the names that occur |
| TelegramFamily.SummaryAddsUp | src/lib/telegram-family.ts:121-128 | the per-person counts add up to the number of events |
| TelegramFamily.TallyIsCount | src/lib/telegram-family.ts:121-122 | the count dictionary holds exactly the occurring names, each with its number of occurrences |
| TelegramFamily.CountPersons | src/lib/telegram-family.ts:121-123 | the `personCounts` loop yields the names in first-appearance order and each one's occurrence count |
| TelegramFamily.BuildDailySchedule | src/lib/telegram-family.ts:101-129 | the fixed message without events; otherwise the lines of the sorted copy, the total, and a summary of distinct persons with their counts |
| TelegramFamily.DigestSummaryAddsUp | src/lib/telegram-family.ts:121-128 | the summary's counts add up to the event total, and no person appears twice |
| CheckReminders.ReminderTime | src/app/api/family/check-reminders/route.ts:36-37 | the reminder instant is the start minus the lead time in milliseconds |
| CheckReminders.DueWindow | src/app/api/family/check-reminders/route.ts:38-40 | due iff the reminder instant lies in (now − 6 min, now]: the lower end of `timeDiff` is inclusive, the upper end exclusive |
| CheckReminders.SelectDue | src/app/api/family/check-reminders/route.ts:32-43 | the loop collects exactly the due events |
| CheckReminders.SelectedAreDue | src/app/api/family/check-reminders/route.ts:32-43 | an event is selected iff it was fetched and is due, and the selection keeps the fetched order |
| CheckReminders.DueLabel | src/app/api/family/check-reminders/route.ts:59-63 | the label uses the same thresholds, with no truthiness guard: 0 is worded as 0 minutes |
| CheckReminders.ZeroLeadTimeLabels | src/app/api/family/check-reminders/route.ts:59-63 | a zero lead time gets a cron label, but no line in the new-event announcement |
| CheckReminders.HandleCheckReminders | src/app/api/family/check-reminders/route.ts:13-80 | disabled by the switch; a storage error reported; otherwise remindersChecked is the number fetched (0 for none), remindersSent the number selected, and one labelled reminder per due event in order |
| TelegramWebhook.Name | src/app/api/family/telegram-webhook/route.ts:48-58 | every command name has at least four characters |
| TelegramWebhook.CommandsExclusive | src/app/api/family/telegram-webhook/route.ts:48-59 | no text matches two different commands, with or without the bot suffix |
| TelegramWebhook.CommandOf | src/app/api/family/telegram-webhook/route.ts:48-59 | the command the trimmed text matches, or none when it matches none |
| TelegramWebhook.CommandOfMatches | src/app/api/family/telegram-webhook/route.ts:48-59 | the command table picks c iff the text matches c |
| TelegramWebhook.CommandAction | src/app/api/family/telegram-webhook/route.ts:48-59 | today and tomorrow ask for the schedule 0 and 1 days ahead; help and start share one reply |
| TelegramWebhook.Route | src/app/api/family/telegram-webhook/route.ts:12-68 | a callback is handled first (only `delete_event:` data deletes, the id after the prefix); then a missing message is ignored; voice comes before text; an empty text is ignored; commands go to their handler; other text not starting with '/' is added as an event; unknown commands do nothing |
| TelegramWebhook.DeleteButtonRoundTrip | src/app/api/family/telegram-webhook/route.ts:23-24 | the callback `delete_event:` + id deletes exactly id |
| TelegramWebhook.BlankTextAddsEvent | src/app/api/family/telegram-webhook/route.ts:45-61 | text of only white space trims to nothing and goes to the add-event flow |
| TelegramWebhook.FirstIndexOf | src/app/api/family/telegram-webhook/route.ts:190 | the first position of a character, none when absent |
| TelegramWebhook.LastIndexOf | src/app/api/family/telegram-webhook/route.ts:190 | the last position of a character, none when absent |
| TelegramWebhook.ExtractJson | src/app/api/family/telegram-webhook/route.ts:190-191 | a match exists iff some '{' precedes some '}', and then it is the span from the first '{' to the last '}' |
| TelegramWebhook.ExtractJsonAround | src/app/api/family/telegram-webhook/route.ts:190 | an object surrounded by brace-free text is extracted exactly |
| TelegramWebhook.EndDate | src/app/api/family/telegram-webhook/route.ts:194 | `end_date` when truthy, otherwise `date` |
| TelegramWebhook.MultiDayIff | src/app/api/family/telegram-webhook/route.ts:221 | multi-day iff the defaulted end date differs from the date |
| TelegramWebhook.Pad | src/app/api/family/telegram-webhook/route.ts:203 | sign '+' for n ≥ 0 and '-' otherwise, the zero-padded magnitude, ":00"; six characters for \|n\| < 100 |
| TelegramWebhook.PadRoundTrip | src/app/api/family/telegram-webhook/route.ts:203-204 | the suffix's sign and digits give back the offset |
| TelegramWebhook.RowOf | src/app/api/family/telegram-webhook/route.ts:207-215 | the inserted row: the parsed title, person and category, the two parsed instants, `recurring` only when true, the reminder and notes only when truthy |
| TelegramWebhook.PrepareAdd | src/app/api/family/telegram-webhook/route.ts:163-215 | the missing-key, not-understood, no-JSON, unreadable and invalid-date outcomes each exactly on their condition (the last when the start or end date-time text, built from the date or defaulted end date, the time and the zone suffix, does not parse, so toISOString throws); otherwise the row holding the two parsed instants is inserted |
| TelegramWebhook.MissingDateNotInserted | src/app/api/family/telegram-webhook/route.ts:204-206 | a reply without `date` is never inserted when the date parser rejects every date-time text whose date part is "undefined" |
| TelegramWebhook.Confirm | src/app/api/family/telegram-webhook/route.ts:217-236 | the storage error, or a confirmation showing the parsed title, person, date (a missing one interpolated as "undefined"), start and end times, "until" the end date iff multi-day, the reminder iff truthy, the notes iff truthy, and a delete button naming the new id |
| TelegramWebhook.ConfirmButtonDeletes | src/app/api/family/telegram-webhook/route.ts:236 | pressing the confirmation's button deletes exactly the inserted event |
| TelegramWebhook.ByDayIsFilter | src/app/api/family/telegram-webhook/route.ts:110-111 | the `byDay` dictionary has a key iff that weekday has events, holding that weekday's events in input order |
| TelegramWebhook.CollectByDay | src/app/api/family/telegram-webhook/route.ts:110-111 | the `forEach` that pushes each event onto its weekday's list, proved to give `ByDay`: a key iff that weekday has events, holding them in input order |
| TelegramWebhook.EmitSections | src/app/api/family/telegram-webhook/route.ts:114-122 | the loop over weekdays 0..6 emits a section exactly for each weekday with events, in order (`DaySections`) |
| TelegramWebhook.HandleWeek | src/app/api/family/telegram-webhook/route.ts:90-126 | the fixed reply iff there are no events; otherwise the week's Sunday, one section per weekday with events, and the total |
| TelegramWebhook.DaySectionsOrdered | src/app/api/family/telegram-webhook/route.ts:114-117 | the sections run in strictly increasing weekday order within 0..6 |
| TelegramWebhook.DaySectionsContent | src/app/api/family/telegram-webhook/route.ts:115-122 | each section is non-empty and holds exactly its weekday's events in input order |
| TelegramWebhook.DaySectionsComplete | src/app/api/family/telegram-webhook/route.ts:114-117 | every weekday with events has a section |
| TelegramWebhook.WeekTotalAddsUp | src/app/api/family/telegram-webhook/route.ts:124 | the sections together list every event once: their sizes add up to the total |
| TelegramWebhook.EventInItsDay | src/app/api/family/telegram-webhook/route.ts:93-111 | an event of the queried week lies within the day of the week its weekday names |

## Left out

- Network and storage I/O are arguments or left out: every `fetch`, the storage queries and their filters, Telegram `sendMessage`/`editMessage`/`getFile`, OpenAI chat and transcription, and the `Promise.all` fan-out. A query's answer, an insert's result and the per-chat delivery results are parameters.
- The voice flow's download and transcription are not modelled. Routing sends a voice note to `Transcribe`.
- Time zones are not modelled: date-fns beyond the modelled helpers, `toLocaleString`/`toLocaleTimeString` with Asia/Jerusalem, `ilOffset` and daylight saving. The model has one fixed local zone. The offset given to `Pad` is a parameter, and fractional offsets are not modelled.
- Month arithmetic (`addMonths`/`subMonths`) is a parameter of the navigation handlers, so nothing is claimed about month steps.
- JavaScript's `Date` parsing of the start and end date-time texts is a parameter, like `JSON.parse`: it yields an instant, or nothing where `toISOString` would throw. Which texts `Date` accepts is not modelled.
- `JSON.parse` is a parameter. A JSON `null` field and a missing one are both `None`, and a `None` date is interpolated as "undefined" where the code would write "null"; JavaScript's `Date` rejects both texts, so no outcome differs. Fields that are not strings (a numeric `date`, say) are not modelled.
- The weekday name of the parsed date in the confirmation is not modelled. That date is a string parsed by `Date`.
- Message wording is not modelled: emoji, Hebrew text, HTML layout, and the time and date formatting of messages. Messages are modelled by their parts. The number shown in "m/60 hours" is not rendered.
- TelegramFamily.BuildDailySchedule: the summary lists persons in first-appearance order. `Object.entries` puts names that look like array indices first, and that ordering is not modelled.
- The webhook's confirmation and weekly digest embed titles and persons without HTML escaping. The model keeps the raw fields and claims nothing about markup.
- React rendering, `EventBlock` geometry (floating-point hours and percentage widths), scrolling, body-style locking, the resize listener, the `isMobile` switch to day view, and `localStorage` persistence of custom categories are not modelled.
- The maximum number of simultaneously running events in a group, compared with `totalCols`, is not proved.
- Environment configuration is passed in as parameters: member lists, emojis, colours, `BOT_USERNAME`, tokens and `DISABLE_CRON_JOBS`.
- The announcements and events routes, the standalone event parser (its brace extraction is the same as `ExtractJson`) and the storage client factory are not part of this model.
- Announcements, the event modal's form and the AI parse in the browser are not part of this model.

Behaviour of the code that the model keeps as written:

- The "today" button does not reset the hour expansions.
- Choosing the view already shown does not reset them.
- A drop keeps the seconds of the target date.
- The duration is truncated to whole minutes.
- A blank message goes to the add-event flow.
- A zero lead time is labelled by the cron job but gets no line in the new-event announcement.
- A zero-length event that starts exactly when an otherwise isolated event starts, and comes after it in input order, joins that event's group and takes a second column, so the isolated event is drawn at half width. Full width is proved only when every event of the day has start < end.
