# LED-ART controller, modelled in Dafny

LED-ART drives a P10 LED board. This project models the part of it that
decides what gets shown, stored and sent. That part lives in three places.

- **`ledart-app.js`**, the LedArt-style editor page:
  - the mock board API keeps a history of sent quick messages and programs, capped at the newest 100 records;
  - the history page lists the newest five and words each record's age as "Just now", "5m ago", "3h ago", "2d ago" or a date;
  - text and clock widgets are placed on a canvas and dragged; a drag never goes past the top or left edge;
  - calendar events are scheduled, deleted and imported from a birthday CSV file.
- **`frontend/assets/js/script.js`**, the dashboard page:
  - messages are sent at once or scheduled for the next occurrence of a clock time;
  - a minute timer sends the scheduled messages that are due;
  - logs are cleared, birthdays are uploaded from CSV, and the dashboard shows counts and recent activity.
- **`app.py`**, the Flask server:
  - the upload-extension filter;
  - the dashboard's list of birthdays in the next 30 days;
  - the daily birthday greetings, with a fixed fallback text when no AI client is configured;
  - the `/api/program` composition of widget texts and 12h or 24h clock readings;
  - `/api/schedule`, which stores a schedule row and registers a cron job.

Times are integer milliseconds. The current time, `Date.now()` ids, today's date, the
configured AI client's reply and the local date text are parameters.

The modules follow the program's structure:

| file | module | models |
|---|---|---|
| `wrappers.dfy` | `Wrappers` | `Option` and `Result` |
| `text.dfy` | `Text` | JavaScript `trim`, one-character `split` and `join`, decimal digits, ASCII `lower()` |
| `seqs.dfy` | `Seqs` | `filter`, counting, reversal |
| `calendar.dfy` | `Calendar` | Python `date`: validity, `replace(year=…)`, ordering, day differences |
| `led_history.dfy` | `LedHistory` | the mock board API's history and `formatMessageTime` |
| `led_editor.dfy` | `LedEditor` | widgets, the drag clamp, calendar events, the birthday import |
| `scheduler.dfy` | `Scheduler` | the dashboard page's messages, logs, minute check and CSV upload |
| `dashboard.dfy` | `Dashboard` | `updateDashboard`'s figures |
| `server.dfy` | `Server` | the `app.py` routes and jobs listed above |

### How the minute timer behaves

`checkScheduledMessages` removes sent messages with `splice` inside the `forEach` that is
walking the same list. The element that moves into the removed slot is never visited
in that pass. So of two adjacent due messages, only the first is sent on that check.
`Scheduler.Tick` is a loop that reproduces this. `Scheduler.FireMask` restates it
independently, position by position: a message fires when it is due and the message before
it did not fire. The lemmas prove the two agree and that the fired and kept lists
partition the queue. They also prove that each run sends at least as many due messages
as it leaves due, and at least one when any is due, and that no message is sent twice.

## Model

| member | source | states |
|---|---|---|
| `Text.Trim` | ledart-app.js:1057 | the trimmed text is no longer than the input and starts and ends with a non-space |
| `Text.TrimIsSlice` | ledart-app.js:1057 | trimming removes only whitespace, and only at the two ends; what remains is a contiguous slice of the input |
| `Text.TrimEmptyIffAllSpace` | ledart-app.js:1055 | a line is skipped as blank (`!line.trim()`) exactly when every character is whitespace |
| `Text.Split` | ledart-app.js:1051 | `split` yields at least one part and no part contains the separator |
| `Text.JoinSplit` | ledart-app.js:1051 | joining the parts of a split with the separator gives back the text |
| `Text.SplitJoin` | ledart-app.js:1051 | splitting a join of separator-free parts gives back the parts |
| `Text.ParseNatToString` | ledart-app.js:445-447 | the decimal text of a count reads back as that count |
| `Text.LowerAscii` | app.py:91 | `lower()` keeps the length and lowers exactly the letters A–Z |
| `Seqs.FilterMembership` | ledart-app.js:812 | an element survives `filter` exactly when it was present and passes the test |
| `Seqs.FilterAppend` | ledart-app.js:812 | `filter` distributes over concatenation, so it keeps the order of what it keeps |
| `Seqs.FilterLength` | frontend/assets/js/script.js:671-673 | the length of a filtered list is the number of elements passing the test |
| `Seqs.CountAppend` | frontend/assets/js/script.js:671-673 | counts add up over concatenation |
| `Seqs.Reverse` | ledart-app.js:418 | entry k of the reversed list is entry n-1-k of the original |
| `Calendar.ReplaceYear` | app.py:127-129 | `replace(year=y)` keeps month and day and fails exactly for 29 February in a common year or a year outside 1..9999 |
| `Calendar.YearLength` | app.py:130 | the twelve months of a year add up to 365 or 366 days |
| `Calendar.YearStep` | app.py:130 | consecutive year starts are one year length apart |
| `Calendar.OrdinalMonotone` | app.py:128-130 | an earlier date has a smaller day number, and equal dates have equal numbers |
| `Calendar.DayOfYearBounds` | app.py:130 | a date's day of the year lies between 1 and the year's length |
| `Calendar.LeapShift` | app.py:130 | the months before `m` hold one extra day in a leap year exactly when they include February |
| `Calendar.SameYearGap` | app.py:130 | two dates of one year are fewer days apart than the year is long |
| `Calendar.NextYearGap` | app.py:129-130 | a next-year birthday whose date this year has passed is at most 365 days ahead |
| `LedHistory.NewestAppend` | ledart-app.js:54-65 | pushing one record and keeping the newest n is keeping the newest n-1 and then the record; the oldest is the one dropped |
| `LedHistory.NewestIsSuffix` | ledart-app.js:63-65 | the kept records are the last ones, in their order |
| `LedHistory.MessageHistory.Store` | ledart-app.js:53-67 | the new list is the newest 99 old records followed by the new one, and never more than 100 |
| `LedHistory.MessageHistory.SendQuickMessage` | ledart-app.js:48-70 | a `quick_message` record with the given id, text and time is appended under the 100 cap |
| `LedHistory.MessageHistory.SendProgram` | ledart-app.js:72-94 | a `program` record titled "Program: N widget(s)" and carrying the widgets is appended under the 100 cap |
| `LedHistory.ProgramSummary` | ledart-app.js:79 | the title is "Program: ", the widget count in decimal without leading zeros, then " widget(s)" |
| `LedHistory.TwoSends` | ledart-app.js:54-65 | after two sends the list is the newest 98 earlier records followed by both new ones in send order |
| `LedHistory.RecentMessages` | ledart-app.js:416-418 | the list shows the last five records newest first, and is empty exactly when the history is |
| `LedHistory.AgeOf` | ledart-app.js:436-447 | the age buckets are at 1 minute, 1 hour, 1 day and 7 days, and each count is the floor of the elapsed units |
| `LedHistory.FormatMessageTime` | ledart-app.js:436-450 | "Just now" under a minute, then "Nm ago", "Nh ago", "Nd ago" with N the floored units in decimal without leading zeros, and the local date from seven days on |
| `LedEditor.CreateWidget` | ledart-app.js:545-578 | a widget exists exactly for "text" and "clock"; it sits at (10,10), is 16 high and 64 or 80 wide, and carries its type's defaults |
| `LedEditor.DragPosition` | ledart-app.js:654-655 | a dragged coordinate is never negative and equals start plus delta unless that is negative |
| `LedEditor.WithoutWidget` | ledart-app.js:812 | no widget with the deleted id remains |
| `LedEditor.DeleteWidgetKeepsOthers` | ledart-app.js:812 | a widget remains exactly when it was there and has another id; deletion removes as many widgets as carry the id |
| `LedEditor.WithoutEvent` | ledart-app.js:1034 | no event with the deleted id remains |
| `LedEditor.DeleteEventKeepsOthers` | ledart-app.js:1034 | an event remains exactly when it was there and has another id |
| `LedEditor.ScheduledCountLabel` | ledart-app.js:410-414 | the label is the count in decimal without leading zeros, a space, and "events", or "event" when the count is 1 |
| `LedEditor.ParseBirthdayLineSpec` | ledart-app.js:1054-1069 | a line yields an event exactly when it is not the header and its first two trimmed fields are non-empty; the event carries those fields |
| `LedEditor.ImportedEventsAreBirthdays` | ledart-app.js:1058-1065 | every imported event repeats yearly at 09:00 and has a date |
| `LedEditor.BirthdayImportRoundTrip` | ledart-app.js:1050-1071 | importing a file written as a header plus `name,date` lines gives one event per row, in order, with the row's name and date |
| `LedEditor.CsvLines` | ledart-app.js:1051 | such a file splits back into the header and the row lines |
| `LedEditor.ReadBirthdays` | ledart-app.js:1054-1071 | the loop collects the events of the import specification, and `importCount` is their number |
| `LedEditor.AppState.constructor` | ledart-app.js:121-136 | the widget and event lists are loaded from what was stored, and no widget is selected |
| `LedEditor.AppState.AddWidget` | ledart-app.js:537-543 | the new widget is appended, stored and selected; widgets on the canvas stay on it |
| `LedEditor.AppState.DeleteWidget` | ledart-app.js:811-823 | the widget is filtered out, the list is stored and the selection cleared |
| `LedEditor.AppState.DragWidget` | ledart-app.js:648-655 | only the dragged widget moves, to the clamped position, and it stays on the canvas |
| `LedEditor.AppState.ScheduleEvent` | ledart-app.js:967-994 | an event with id "event_" plus the stamp is appended and stored |
| `LedEditor.AppState.DeleteEvent` | ledart-app.js:1032-1041 | when confirmed, the event is filtered out and stored; otherwise nothing changes |
| `LedEditor.AppState.ImportBirthdays` | ledart-app.js:1044-1085 | the imported events are appended; storage is written only when at least one was imported |
| `Scheduler.ParseClockTimeRoundTrip` | frontend/assets/js/script.js:418-419 | a two-digit "HH:MM" reads back as its hour and minute |
| `Scheduler.NumberValue` | frontend/assets/js/script.js:419 | text that is a run of digits once trimmed reads as its decimal value, and blank text as 0 |
| `Scheduler.RollForward` | frontend/assets/js/script.js:418-423 | the scheduled time is today's clock time when that is after now, and exactly one day later otherwise |
| `Scheduler.RollForwardWithinADay` | frontend/assets/js/script.js:418-423 | for a valid clock time the message is scheduled strictly after now and at most a day ahead |
| `Scheduler.Board.constructor` | frontend/assets/js/script.js:4-6 | the three lists are loaded from storage |
| `Scheduler.Board.ScheduleMessage` | frontend/assets/js/script.js:405-441 | a valid form with a readable time appends one `Scheduled` message at the rolled-forward time; otherwise the queue is unchanged |
| `Scheduler.Board.SendMessage` | frontend/assets/js/script.js:378-403 | a valid form puts one `Manual` entry at the front of the logs |
| `Scheduler.Board.ClearLogs` | frontend/assets/js/script.js:518-525 | when confirmed the logs are empty; otherwise nothing changes |
| `Scheduler.Board.CheckScheduledMessages` | frontend/assets/js/script.js:800-829 | the queue becomes the kept messages and the logs gain one `Scheduled` entry per fired message, newest in front |
| `Scheduler.Tick` | frontend/assets/js/script.js:803-826 | the forEach-with-splice loop computes exactly the kept queue and the new logs of the check's specification |
| `Scheduler.SentEntriesNewestFirst` | frontend/assets/js/script.js:812 | the message fired last heads the new log entries |
| `Scheduler.FireMaskFollowsRule` | frontend/assets/js/script.js:803-817 | the fire mask obeys the skip rule: a message fires when it is due and its predecessor did not fire |
| `Scheduler.SkipRuleDeterminesMask` | frontend/assets/js/script.js:803-817 | the skip rule determines the mask: any mask obeying it is the fire mask |
| `Scheduler.KeptAndFiredByMask` | frontend/assets/js/script.js:803-817 | the kept and fired lists of the loop are the messages the mask marks false and true |
| `Scheduler.FiredAreDue` | frontend/assets/js/script.js:806 | only due messages are sent |
| `Scheduler.KeptAndFiredPartition` | frontend/assets/js/script.js:803-817 | kept plus fired is the old queue as a multiset: nothing is lost or duplicated |
| `Scheduler.PickPartition` | frontend/assets/js/script.js:816 | splitting by a mask partitions the list |
| `Scheduler.CheckSendsHalfTheDue` | frontend/assets/js/script.js:803-817 | each check sends at least as many due messages as it leaves due, and sends one whenever one is due |
| `Scheduler.NothingDueNothingChanges` | frontend/assets/js/script.js:806 | with nothing due the queue is kept whole and nothing is sent |
| `Scheduler.AdjacentDueNeedTwoChecks` | frontend/assets/js/script.js:803-817 | of two adjacent due messages the first is sent now and the second only on a later check |
| `Scheduler.AtMostOnceOverTwoChecks` | frontend/assets/js/script.js:816 | across two checks no message is sent more than once |
| `Scheduler.CsvBirthdaysStep` | frontend/assets/js/script.js:494-502 | each line after the header adds one birthday exactly when it has two or more comma fields |
| `Scheduler.BirthdayLineRead` | frontend/assets/js/script.js:494-502 | a `name,dob` line gives one birthday with the trimmed name and date and the id stamp plus line index |
| `Scheduler.LineWithoutCommaSkipped` | frontend/assets/js/script.js:496 | a line without a comma adds nothing |
| `Scheduler.ReadBirthdays` | frontend/assets/js/script.js:489-502 | the loop appends exactly the birthdays the upload specification gives |
| `Scheduler.Board.UploadBirthdays` | frontend/assets/js/script.js:482-509 | the birthdays list gains the file's rows; messages and logs are untouched |
| `Dashboard.KindCount` | frontend/assets/js/script.js:671-673 | the per-type figure is the number of log entries of that type, at most the total |
| `Dashboard.DashboardStats` | frontend/assets/js/script.js:668-673 | the total is the log length, Manual, Birthday and Scheduled are the counts of entries of those types, and the three together never exceed the total |
| `Dashboard.StatsAfterPrepend` | frontend/assets/js/script.js:396 | after an entry is put in front, the total and the entry's own type's figure grow by one and the others stay |
| `Dashboard.PrependCount` | frontend/assets/js/script.js:396 | a new entry in front adds one to its own type's figure and to no other |
| `Dashboard.CheckCounts` | frontend/assets/js/script.js:800-817 | a check raises the `Scheduled` figure by the number sent and leaves the others |
| `Dashboard.RecentActivity` | frontend/assets/js/script.js:676 | recent activity is the first three entries, or all when fewer |
| `Dashboard.RecentAfterPrepend` | frontend/assets/js/script.js:676 | a new entry heads recent activity, followed by up to two earlier ones |
| `Dashboard.ActivityText` | frontend/assets/js/script.js:685 | a message is cut to 50 characters and "..." is added exactly when it was longer |
| `Server.AfterLast` | app.py:91 | `rsplit('.', 1)[1]` is the dot-free tail after the last dot |
| `Server.AllowedFileMeans` | app.py:90-91 | a file is allowed exactly when it has a dot and the lowered text after the last dot is `csv` or `xlsx` |
| `Server.ExtensionDecides` | app.py:90-91 | for a name ending in ".ext", only the extension decides |
| `Server.IsoDateRoundTrip` | app.py:126 | `%Y-%m-%d` reads back every valid date it writes |
| `Server.MonthField` | app.py:126 | `%m` accepts exactly one or two digits worth 1 to 12 |
| `Server.DayField` | app.py:126 | `%d` accepts exactly one or two digits worth 1 to 31, or a space and a digit 1 to 9 |
| `Server.ParseIsoDate` | app.py:126 | a text that reads as a date gives a valid date, is 8 to 10 characters long, and starts with the year's four digits and a dash |
| `Server.IsoDateCanonical` | app.py:126 | a text that reads as a date is that date's `YYYY-MM-DD` form exactly when it is ten characters long with a digit where the day starts |
| `Server.NextBirthday` | app.py:127-129 | the next birthday has the birth month and day, is not before today, and falls this year or, when this year's has passed, next year |
| `Server.NextBirthdayFails` | app.py:127-129 | the computation raises exactly for a 29 February birth date when this year is common or this year's birthday has passed (next year is then common), and for any date whose birthday has passed in the year 9999 |
| `Server.DaysUntil` | app.py:130 | the day count is the number of days from today to the next birthday, non-negative, and zero exactly on the birthday itself |
| `Server.ZeroDaysOnBirthday` | app.py:127-130 | the day count is 0 exactly when today has the birth month and day |
| `Server.DaysUntilWithinAYear` | app.py:127-130 | the next birthday is at most 365 days away |
| `Server.RowUpcomingMeans` | app.py:123-132 | a row is listed exactly when its birthday is at most 30 days away, with that count |
| `Server.RowUpcomingInWindow` | app.py:131-132 | a row contributes at most one entry, with its name and a count in 0..30 |
| `Server.GatherMeans` | app.py:122-132 | the loop's result holds exactly the entries of the rows, and fails exactly when some row fails |
| `Server.GatherFailureSticks` | app.py:122-132 | once a row raises, the rest of the loop does not matter |
| `Server.UpcomingWithinWindow` | app.py:122-132 | every listed birthday is within 30 days and belongs to a stored row |
| `Server.SortByDaysCorrect` | app.py:134 | the sort orders by days, is a permutation, and keeps rows with equal days in their order (Python's sort is stable) |
| `Server.UpcomingBirthdays` | app.py:118-135 | the dashboard lists the rows' upcoming birthdays sorted by days, or fails as the first failing row does |
| `Server.GatherAll` | app.py:122-132 | the loop computes the gathered result |
| `Server.FromSixth` | app.py:330 | SQLite `substr(dob, 6)` is the text from the sixth character on |
| `Server.MonthDay` | app.py:330 | `%m-%d` is two digits of month, a dash, two digits of day |
| `Server.BirthdayTodayMeans` | app.py:330 | a stored canonical date matches today exactly when month and day agree |
| `Server.SendAgreesWithDashboard` | app.py:330 | every row the daily job matches is one the dashboard counts as 0 days away; for a date written with four, two and two digits the converse holds too |
| `Server.FromSixthOfMatch` | app.py:330 | a stored date the query matches is ten characters long with a digit where the day starts |
| `Server.ShortDateNeverGreeted` | app.py:330 | a readable date not written as four, two and two digits is matched on no day |
| `Server.ShortDateMissedOnItsDay` | app.py:330 | on 5 March "1990-3-5" is listed at 0 days and is not greeted |
| `Server.BirthdayMatchesDashboard` | app.py:330 | the intended match on the parsed month and day agrees with the dashboard's 0-day count for every readable date, and with the query on every `YYYY-MM-DD` date |
| `Server.BirthdayNames` | app.py:330-331 | one name per matching row |
| `Server.BirthdayNamesInOrder` | app.py:330-332 | the names are those of the matching rows, each once, in table order |
| `Server.BirthdayNamesMeans` | app.py:330-332 | a name is greeted exactly when some row with that name matches today |
| `Server.BirthdayMessage` | app.py:279-295 | with no client or no settings row the greeting is "Happy Birthday NAME!"; otherwise it is the AI reply to the settings' prompt with white space trimmed from both ends |
| `Server.FallbackText` | app.py:295 | without a client the greeting is exactly "Happy Birthday NAME!" |
| `Server.MapSeq` | app.py:331-336 | one result per item, in order |
| `Server.FallbackGreetings` | app.py:326-336 | without a client there is one greeting per matching row, and each is "Happy Birthday NAME!" for a matching row |
| `Server.FallbackGreetingsInOrder` | app.py:326-336 | without a client greeting k is "Happy Birthday NAME!" for the k-th matching row in table order |
| `Server.MapSeqAppend` | app.py:331-336 | mapping over two lists one after the other gives the two mapped lists in order |
| `Server.Hour12` | app.py:394 | `%I` is 1..12 and agrees with the hour modulo 12 |
| `Server.Format24RoundTrip` | app.py:396 | `%H:%M` reads back as the time it shows |
| `Server.Format12RoundTrip` | app.py:394 | `%I:%M %p` reads back as the time it shows, AM and PM included |
| `Server.CombinedMessage` | app.py:400 | no parts give "Program Active"; otherwise the message starts with the first part and ends with the last |
| `Server.CombinedMessageParts` | app.py:400 | one part is shown alone; otherwise the first part is followed by " \| " and the combination of the rest |
| `Server.CombinedMessageLength` | app.py:400 | the message holds every part's characters plus three for each separator between parts |
| `Server.ProgramPartsCount` | app.py:386-397 | a successful composition has one part per text or clock widget |
| `Server.OtherWidgetIgnored` | app.py:388-392 | a widget of another type adds nothing |
| `Server.TextProgramParts` | app.py:388-389 | for text widgets the parts are their texts, in order |
| `Server.CronTime` | app.py:253 | a registered job has an hour below 24 and a minute below 60, and a time without ":" registers none |
| `Server.CronTimeOfClock` | app.py:253 | every "HH:MM" clock reading registers at its own hour and minute |
| `Server.SendEach` | app.py:331-336 | the loop hands every text to `send_message` in order and logs one row per text |
| `Server.Backend.constructor` | app.py:60-88 | the tables start as given, with no jobs and nothing handed to `send_message` |
| `Server.Backend.SendBirthdayMessages` | app.py:326-338 | one greeting per matching row is handed to `send_message`, and each is logged as a `birthday` message |
| `Server.Backend.ApiProgram` | app.py:378-413 | on success the combined message is handed to `send_message` and logged as "Program: …"; on a missing key nothing is sent or logged |
| `Server.Backend.ApiSchedule` | app.py:240-254 | the row is always stored with active as 1 or 0; a job is added when active and the time is valid; the request fails only when active and the time is not |

## Left out

- Browser storage is a field of each class, the `localStorage` list or map written through. JSON encoding, decoding and a corrupt stored value are not modelled.
- Timers (`setTimeout`, the minute re-check, the 1.5 s send delay), notifications, modals and the DOM are not modelled. Each operation is the state change it makes when it runs.
- `Date` parsing, time zones, daylight saving and `toLocaleString`/`toLocaleDateString` are not modelled. Times are milliseconds, today's local midnight is a parameter, and the locale date text is a parameter of `LedHistory.FormatMessageTime`.
- Strings are sequences of code points, not UTF-16 units, so `substring(0, 50)` and lengths differ for text outside the Basic Multilingual Plane.
- The emoji in the birthday-import titles and messages are kept as the four characters each the script's text holds.
- `Scheduler.NumberValue`: trims the text, then accepts blank text (as 0) and plain decimal digits only. JavaScript `Number()` also accepts signs, exponents, hex and fractions such as "8.5", which `setHours` then truncates to 8. Other text gives no value and nothing is queued; the script gets an invalid date, whose `toISOString` throws before the push.
- `Server.IntValue`: accepts digits with surrounding whitespace only. Python `int()` also accepts signs, underscores and non-ASCII digits.
- `Server.ParseIsoDate`: reads ASCII digits only. Python's `\d` in `strptime` also matches other Unicode decimal digits.
- Python `strip()` uses JavaScript's whitespace set, and `lower()` lowers ASCII letters only.
- The AI client is a parameter `reply`. Its network call, model and token limit are not modelled. `fetch_news`/`send_news` are not part of this model.
- Each request uses one `now` and one timestamp. The server reads the clock again for each row and widget.
- The frontend also reads `Date.now()` once per element, and the model uses one `stamp` for the whole operation:
  - frontend/assets/js/script.js:808, the log id of each fired message (`Scheduler.Tick`, `Scheduler.SentEntry`);
  - frontend/assets/js/script.js:496, the id `Date.now() + i` of each uploaded line (`Scheduler.CsvBirthday`);
  - ledart-app.js:1060, the `birthday_` id of each imported line (`LedEditor.BirthdayEvent`).
  In the source those readings can differ from element to element; the model uses one reading for all of them.
- `Server.Backend.SendBirthdayMessages` computes all greetings before sending. The source interleaves generating and sending; since generating changes nothing, the resulting sends and rows are the same.
- `Server.Backend.SendBirthdayMessages`: the AI call never fails in the model. In the source an exception from the chat completion aborts `send_birthday_messages` before `conn.commit()`. The greetings already handed to `send_message` stay sent, but no `messages` row of that run is stored. The model always logs every greeting.
- `send_message` (app.py:256-276) is not modelled past its call: `outbox` holds every text handed to it. The source passes a text to the board only when the `board_settings` row with id 1 exists and its protocol is `HTTP` or `TCP`, and it ignores any network failure.
- `api_program` only reads widget types and properties; other JSON shapes, such as a non-list `widgets`, are not modelled.
- `Server.CronTime`: includes APScheduler's own rejection of an hour above 23 or a minute above 59. The cron job's firing is not modelled; jobs are a list.
- `LedEditor.AppState.AddWidget`: requires a text or clock type, the only ones the page offers. With another type the script pushes `undefined` and then fails while drawing it.
- `LedHistory.MessageHistory.SendProgram`: stores only the program's widgets. The `programData` object the source keeps with the record also holds the program type, board size and timestamp (ledart-app.js:83); these are not modelled.
- Widget properties are typed values. Editing them through the properties panel (`updateWidgetProperties`, `updateClockProperties`) is not modelled.
- The widget object that a drag closure shares with the list is not modelled; a drag replaces entry `i` of the list.
- `updateEventsList` sorts `scheduledEvents` in place by parsed date and time. That order depends on `Date` parsing and is not modelled. Events are never fired on the board in the source either.
- `validateForm` and `confirm` are boolean parameters.
- `clearCanvas`, settings pages, board status and connectivity probes, login, and the birthdays, messages, logs and settings pages of `app.py` are not part of this model.
- `static/js/script.js` and `test_connectivity.py` are not part of this model.
- Flask, SQLite, sockets and the scheduler thread are not modelled. Tables are lists.
- Dates are limited to Python's years 1..9999.

## Findings

| source | as written | input that shows it | evidently intended | confidence | as-written member | corrected member |
|---|---|---|---|---|---|---|
| app.py:330 | the daily job matches `substr(dob, 6)` against today's `%m-%d`, while the dashboard reads the date with `strptime` (app.py:126), which also takes one-digit months and days; uploaded dates are stored as written (app.py:159-163) | a row with dob "1990-3-5" on 5 March: the dashboard lists it at 0 days, and no greeting is sent | greet every row the dashboard lists at 0 days, matching the parsed month and day | high; not executed | `Server.ShortDateMissedOnItsDay` | `Server.BirthdayMatchesDashboard` |

`Server.BirthdayToday` stays the query as written, since that is what the daily job does;
`Server.ShortDateNeverGreeted` shows that such a row is never greeted. `Server.BirthdayMatches`
is the intended match. It agrees with the query on every date written as `YYYY-MM-DD`.
