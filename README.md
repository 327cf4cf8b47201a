# Counseling session scheduler — a Dafny model

This project models the core of a counseling-session scheduler. Counselors of a
few branches and teams book sessions on a half-hour grid. A session records:

- the requested subject and the subject the student actually registered for;
- a mode (remote or offline);
- a status: pending, done, registered, not registered or canceled.

The server is a FastAPI application backed by SQLAlchemy:

- **sessions** lists, creates, updates and deletes sessions and refuses invalid or overlapping ones.
- **stats** computes the dashboard: branch rows, subject rows and headline cards.
- **views** builds the "mismatch" page: registered sessions whose registered subject differs from the requested one.
- **meta** keeps the branch and team code tables.
- **daily_db** and **daily_db_team** keep the daily lead counts per branch and per team.
- **subjects** lists subjects.
- **services/validators** and **services/labels** hold the checks and the display labels shared by these routers.

The browser script, `app/static/script.js`, draws these views:

- the week board, the day board and the month grid;
- the timetable geometry: positions, heights and the time rail;
- the session form and the requests it sends;
- the per-branch subject cache and the admin lists.

## Model structure

One module per source component, plus shared modules:

- **Wrappers**: Python truthiness, `Option` and `Result`.
- **Text**: digit strings, `pad2`, `split`.
- **Order**: string order, a stable insertion sort and filters, counts and sums.
- **Calendar**: civil dates, and JavaScript `Date` normalisation, including its 0..99 year remap.
- **Models**: the records of `app/models.py`.

Database tables are sequences of rows held by classes:

- `Sessions.SessionStore` holds the sessions.
- `Meta.MetaTable` holds a branch or a team code table.
- `DailyDb.DailyCountTable` holds one of the daily count tables.

The endpoints that change a table are methods. Each method is specified by a pure function of the old table, with lemmas about that function. The client's views are functions over the fetched rows. The loops of the script and of the routers are methods with loop invariants.

Behaviour of the code that the model makes explicit:

- **Block heights.** A 09:00–10:00 block is 46 px tall: 60 minutes at 0.8 px per minute, less a 2 px gap (`Layout.HourBlockHeight`). A half-hour block is 22 px tall (`Layout.HalfHourBlockHeight`).
- **Updates cannot clear fields.** On an update, a field the payload leaves null keeps its stored value, so a nullable field cannot be cleared (`Sessions.MergeCannotClear`).
- **Card rate with a team filter.** When a team is given, the dashboard card divides by the team's lead sum even when that sum is 0, so the rate becomes null. The per-branch rows fall back to the branch's own count in that case (`Stats.ZeroTeamSumDiverges`).
- **Re-saving after a deactivation.** The form's selects offer only the active branches and teams and the branch's loaded subjects. So re-saving a session whose branch, team or subject has since been dropped sends an empty code or null for it (`Client.EditResaveClearsUnoffered`).
- **Registered-basis rate.** This per-subject rate can exceed 1. Its numerator counts sessions registered as the subject; its denominator counts sessions that requested it (`Stats.RegisteredBasisCanExceedOne`).

## Model

| member | source | states |
|---|---|---|
| Calendar.StartOfWeek | app/static/script.js:52-59 | the week start is a Monday at midnight, on or before the given day and less than seven days before it |
| Calendar.MondayOfWeek | app/static/script.js:53-56 | the day offset of `startOfWeek` (back to Monday, six days back from a Sunday) lands on a Monday within the past week |
| Calendar.MidnightSameDay | app/static/script.js:57 | `setHours(0,0,0,0)` keeps the calendar day and clears the time |
| Calendar.SetDate | app/static/script.js:56 | `setDate(x)` moves to day x of the same month, overflowing into neighbouring months by day count |
| Calendar.AddMinutes | app/static/script.js:49-51 | adding minutes always yields a normalised date and time |
| Calendar.AddMinutesWholeDays | app/static/script.js:49-51 | adding a whole number of days' minutes moves the day number by that many days and keeps the time at midnight |
| Calendar.MakeDate | app/static/script.js:40 | `new Date(y, m, d)` is a valid date whose day number is day 1 of the normalised month plus d-1, with years 0..99 mapped to 1900+ |
| Calendar.MakeDateOfCivil | app/static/script.js:40 | for an in-range year, month and day the constructor gives back that exact date |
| Calendar.FromDateInput | app/static/script.js:38-41 | a parsed date-input string is a valid date at midnight |
| Calendar.DateInputRoundTrip | app/static/script.js:35-41 | parsing the `YYYY-MM-DD` text of a date gives that date back at midnight |
| Calendar.DateInputParts | app/static/script.js:35-37 | the date-input text splits at "-" into the year, the two-digit month and the two-digit day |
| Calendar.EpochIsThursday | app/static/script.js:53 | the weekday numbering agrees with JavaScript's `getDay` (1970-01-01 is a Thursday) |
| Calendar.DaysInMonthIsMonthLength | app/static/script.js:779 | `new Date(y, m+1, 0).getDate()` is the length of month m, leap years included |
| Calendar.FirstWeekday | app/static/script.js:780 | the Monday-based column of the 1st of the month, consistent with `getDay` |
| Calendar.January2025 | app/static/script.js:779-780 | January 2025 starts on a Wednesday (column 2) and has 31 days |
| Calendar.AddDays | app/routers/stats.py:16 | `today - timedelta(days=n)` is a valid date exactly n day numbers away |
| Layout.ClockOfLabel | app/static/script.js:71 | parsing "HH:MM" or "HH:MM:SS" built from an hour and a minute yields minutes h*60+m |
| Layout.SlotLabelRoundTrip | app/static/script.js:403-404 | a slot label written from a minute count parses back to that minute count |
| Layout.TopOfDayStart | app/static/script.js:70-74 | 09:00 is drawn at the top of the timetable |
| Layout.TopStep | app/static/script.js:70-74 | every 30-minute slot lies 24 px below the previous one (0.8 px per minute from 09:00) |
| Layout.TopMonotone | app/static/script.js:70-74 | a later start is never drawn above an earlier one |
| Layout.HeightOfDuration | app/static/script.js:75-79 | a block's height is the distance between its end and start tops less the 2 px gap, and is never drawn under 20 px |
| Layout.HeightOfClocks | app/static/script.js:75-79 | the height of a block from minute s to minute e is 0.8*(e-s)-2, clamped to 20 px in the board |
| Layout.HourBlockHeight | app/static/script.js:75-79 | a 09:00–10:00 block is 46 px tall |
| Layout.HalfHourBlockHeight | app/static/script.js:75-79 | a 09:00–09:30 block is 22 px tall |
| Layout.EmptyBlockHeight | app/static/script.js:456 | a zero-length block still gets the 20 px minimum |
| Layout.Round | app/static/script.js:397 | `Math.round` is within half a unit of its argument |
| Layout.ClickSlotInWindow | app/static/script.js:396-398 | a click anywhere maps to a 30-minute slot inside 09:00–21:00 |
| Layout.ClickSlotNearest | app/static/script.js:396-398 | inside the timetable, the slot chosen is the one nearest the click |
| Layout.TimeRailLabels | app/static/script.js:377-384 | the rail has one label per half hour from 09:00 to 21:00 inclusive, each the slot's "HH:MM" |
| Layout.RailOf | app/static/script.js:377-384 | the rail loop writes the i-th entry for the i-th half hour, 25 in all |
| Layout.RailLabelTop | app/static/script.js:380-382 | the i-th rail label sits at the i-th 24 px row |
| Layout.StatusColors | app/static/script.js:60-69 | the five statuses get five distinct backgrounds and any other status is drawn like a pending one |
| Layout.PendingHourBlock | app/static/script.js:453-457 | a pending 09:00–10:00 block is at top 0, 46 px tall, in the pending colours |
| Grouping.GroupBy | app/static/script.js:442-446 | the grouping loop builds the same groups as the reference definition |
| Grouping.PushFound | app/static/script.js:444-445 | pushing onto an existing key appends to that group only; a new key adds a group at the end |
| Grouping.LookupGroupsOf | app/static/script.js:442-446 | the group of a key is exactly the items with that key, in their original order |
| Grouping.KeysOfGroupsOf | app/static/script.js:442-446 | group keys are distinct, each comes from some item, and every item's key has a group |
| Grouping.EachItemInOneGroup | app/static/script.js:442-446 | every group is the non-empty, order-preserving list of the items with its key |
| Board.StartLeIsPreorder | app/static/script.js:449 | ordering by start time is a total preorder |
| Board.DayList | app/static/script.js:449 | a day's list holds exactly that day's sessions, sorted by start time |
| Board.WeekColumns | app/static/script.js:447-449 | the week board has seven columns, each holding exactly that day's sessions, sorted by start |
| Board.ColumnDates | app/static/script.js:447-448 | column i is i days after the week start and the seven columns have distinct dates |
| Board.InColumn | app/static/script.js:447-449 | a session appears in column j exactly when its date is column j's date |
| Board.EventInOneColumn | app/static/script.js:442-449 | a session of the week appears in exactly one column |
| Board.SortGroups | app/static/script.js:612 | sorting each counselor row keeps its key and its members and orders it by start |
| Board.DayRows | app/static/script.js:601-612 | the day board's rows are the counselor groups, each sorted by start |
| Board.DayRowsPartition | app/static/script.js:601-612 | each day-board row holds exactly that counselor's sessions, and counselors are distinct across rows |
| Board.MyDay | app/static/script.js:766 | the "my day" list is a permutation of the day's sessions in start order |
| Board.TotalCells | app/static/script.js:827 | the month grid covers whole weeks, fewer than seven cells beyond the days it needs |
| Board.RenderMonthGrid | app/static/script.js:820-885 | the month grid for a month has the shape `IsMonthGrid` describes |
| Board.BuildCells | app/static/script.js:835-884 | the cell loop produces blank cells before the 1st and after the last day, and a day cell with its date and its sessions in between |
| Board.CellLoop | app/static/script.js:835 | the loop writes cell k for every index k below the total |
| Board.CellsAreGrid | app/static/script.js:838-851 | cell k is a day cell exactly for the days of the month, carrying day k-fd+1, its date text and exactly that date's sessions |
| Board.InMonthCellCount | app/static/script.js:838-843 | the grid has exactly as many day cells as the month has days and exactly fd leading blanks |
| Board.MonthCellDay | app/static/script.js:844 | the date built for a day cell is that day of the displayed month |
| Board.MonthCellDate | app/static/script.js:844 | a day cell's date text is the date-input text of that day |
| Board.MonthCellWeekday | app/static/script.js:780 | a day cell's column is its weekday, counting Monday as the first column |
| Client.EnsureSubjectsSpec | app/static/script.js:28-34 | an empty branch gives nothing; a cached branch is served from the cache without a fetch; otherwise the fetched list (empty on failure) is cached and returned; other entries are kept |
| Client.MetaCache.EnsureSubjects | app/static/script.js:28-34 | the cache object follows the reference definition: list, new cache and whether a fetch was made |
| Client.EnsureSubjectsMemoised | app/static/script.js:30 | a second call for the same branch fetches nothing and returns the first call's list, whatever the second response |
| Client.OrNullTextRoundTrip | app/static/script.js:192-221 | writing a nullable value into an input (null as "") and reading it back (empty as null) gives a non-empty value or null back, and an input's text survives the trip the other way |
| Client.PayloadDefaults | app/static/script.js:218-219 | the save never sends an empty mode or status: an empty select falls back to OFFLINE and PENDING, and a chosen value is sent as is |
| Client.SaveRequest | app/static/script.js:207-225 | a form with an id sends PUT to that session, one without sends POST to the collection, and the body is the form's payload |
| Client.DeleteRequest | app/static/script.js:245-250 | a delete is sent only for an existing, confirmed session, as DELETE without a body |
| Client.NumberTextRoundTrip | app/static/script.js:213 | writing a positive id into a field and reading it back gives the id; an empty field reads as null |
| Client.ActiveCodeTexts | app/static/script.js:150-154 | the branch and team selects offer exactly the active codes |
| Client.SubjectOffered | app/static/script.js:115 | a subject id is offered exactly when the branch's loaded list holds a subject with that id |
| Client.EditResave | app/static/script.js:183-222 | re-saving an opened session sends a PUT to it with its own values and its times cut to "HH:MM"; a counselor, branch, team or subject that its select does not offer is sent as "" or null |
| Client.EditResaveRoundTrip | app/static/script.js:183-222 | when the counselor is listed, the branch and team are active and the subjects are in the branch's list, re-saving sends back exactly the stored values |
| Client.EditResaveClearsUnoffered | app/static/script.js:150-197 | a deactivated branch or team is sent as "", and a subject missing from the branch's list as null |
| Client.BatchRequest | app/static/script.js:537-546 | nothing is sent when no row is checked; otherwise the checked ids and each field or null |
| Client.DailyItemLeIsPreorder | app/static/script.js:686 | newest date first, then code, is a total preorder |
| Client.DailyFilter | app/static/script.js:682-686 | an admin row is listed exactly when it is in the date range and matches the code filter |
| Client.DailyList | app/static/script.js:682-686 | the admin list keeps exactly the filtered rows, newest first and then by code |
| Client.EmptyRangeListsNothing | app/static/script.js:682-685 | with no start date the admin list is empty |
| Text.Pad2Digits | app/static/script.js:5 | `pad2` of 0..99 is two digits that read back as the number |
| Text.Pad2Value | app/static/script.js:5 | `pad2` of any non-negative number is a digit string with that value |
| Text.JsNumber | app/static/script.js:39 | `Number` of a digit string gives its value and anything else fails |
| Text.Split | app/static/script.js:39 | `split` always yields at least one piece |
| Text.Take | app/static/script.js:185 | `slice(0, n)` is the prefix of length min(n, length) |
| Order.Sort | app/static/script.js:449 | the sort yields a sorted permutation of its input |
| Models.DateLeIsOrder | app/routers/sessions.py:63 | the ordering of dates is total, transitive and antisymmetric |
| Models.FindSubject | app/services/validators.py:25 | the lookup finds a subject with the id exactly when one exists |
| Models.FindCounselor | app/routers/sessions.py:112 | the lookup finds a counselor with the id exactly when one exists |
| Models.FindCode | app/services/labels.py:8 | the lookup finds a row with the code exactly when one exists |
| Validators.HttpStatus | app/routers/sessions.py:103-129 | a missing counselor or session is a 404; every other refusal is a 400 |
| Validators.IsGridIffHalfHours | app/services/validators.py:6-7 | a time is on the grid exactly when it is a whole number of half hours past midnight |
| Validators.OverlapsIffCommonInstant | app/services/validators.py:13 | two non-empty intervals overlap exactly when some instant lies in both |
| Validators.OverlapsSymmetricAndHalfOpen | app/services/validators.py:13 | overlap is symmetric, back-to-back sessions do not overlap, and a non-empty session overlaps itself |
| Validators.CheckOverlap | app/services/validators.py:9-14 | the check reports an overlap exactly when some other session of the counselor on that date overlaps the interval |
| Validators.EnforceConditionals | app/services/validators.py:16-20 | a registered session needs a registered subject, a canceled one a cancel reason, and other statuses pass |
| Validators.BranchSubjectGuard | app/services/validators.py:22-27 | the guard passes exactly when each given subject belongs to the branch |
| Validators.GuardMeansSameBranch | app/services/validators.py:22-27 | a given subject fits the branch exactly when the subject with that id exists and is of the branch |
| Validators.ValidateBranchTeam | app/services/validators.py:29-33 | the pair passes exactly when both codes are active, and an unknown branch is reported before an unknown team |
| Sessions.DateStartLeIsPreorder | app/routers/sessions.py:63 | ordering by date, then by start time, is a total preorder |
| Sessions.ListSessions | app/routers/sessions.py:44-78 | the list holds exactly the stored sessions matching every given filter, ordered by date then start |
| Sessions.ListAll | app/routers/sessions.py:55-63 | with no filter the list is a permutation of the whole table |
| Sessions.ValidateSession | app/routers/sessions.py:103-129 | a refusal names a check that the session indeed fails |
| Sessions.ValidatePipeline | app/routers/sessions.py:170-196 | the session passes exactly when all nine checks hold, and on a refusal every check before the reported one held |
| Sessions.PassedIsWellFormed | app/routers/sessions.py:103-118 | an accepted session is on the grid, ends after it starts, has known enumerated values, and overlaps no other session of its counselor |
| Sessions.MergeNoChanges | app/routers/sessions.py:155-168 | an empty update leaves the session as it was |
| Sessions.MergeIdempotent | app/routers/sessions.py:155-168 | applying the same update twice is the same as once |
| Sessions.MergeFullUpdate | app/routers/sessions.py:155-168 | an update giving every field takes each given value; a falsy code or counselor and a null keep the stored value, so a payload with every field set replaces the session |
| Sessions.MergeCannotClear | app/routers/sessions.py:155-168 | a field left null keeps its old value, so an update cannot clear a nullable field |
| Sessions.Replace | app/routers/sessions.py:199-210 | the row with the id takes the new session; every other row stays in place |
| Sessions.Without | app/routers/sessions.py:219 | deleting keeps exactly the rows with other ids |
| Sessions.CheckedCreateKeepsInvariant | app/routers/sessions.py:116-146 | adding a checked session under the next id keeps ids unique and rows well formed and free of clashes |
| Sessions.CheckedUpdateKeepsInvariant | app/routers/sessions.py:183-210 | replacing a row with a checked session keeps the store invariant |
| Sessions.RemoveKeepsInvariant | app/routers/sessions.py:214-220 | removing a row keeps the store invariant |
| Sessions.ResaveHasNoOverlap | app/routers/sessions.py:183-185 | re-saving a stored session unchanged never reports an overlap with itself or another |
| Sessions.SessionStore.Find | app/routers/sessions.py:150 | the position of the row with the id, or the table length when no row has it |
| Sessions.SessionStore.Create | app/routers/sessions.py:101-146 | an accepted session is appended under a fresh id, which is returned; a refusal returns its error and changes nothing |
| Sessions.SessionStore.Update | app/routers/sessions.py:148-212 | a missing id is a 404; otherwise the merged session is validated ignoring itself and, if it passes, replaces the stored row; the invariant is kept |
| Sessions.SessionStore.Delete | app/routers/sessions.py:214-220 | a missing id is a 404; otherwise exactly that row is removed |
| Sessions.RemoveAt | app/routers/sessions.py:219 | with unique ids, removing the row at a position is removing its id |
| Stats.DefaultRange | app/routers/stats.py:13-17 | when both bounds are given they are kept; when either is missing the range is the 30 days up to today, in order |
| Stats.ActiveCodes | app/routers/stats.py:39-40 | the reported codes are exactly the active codes |
| Stats.BranchCodes | app/routers/stats.py:39-42 | with a branch filter at most that one active code is reported; without it every active code |
| Stats.BranchCodesDistinct | app/routers/stats.py:39-42 | with unique codes in the table, the reported codes are distinct |
| Stats.Rate | app/routers/stats.py:93-94 | a rate is null for a zero denominator and otherwise the exact quotient |
| Stats.RateAtMostOne | app/routers/stats.py:93 | a count over a larger count is between 0 and 1 |
| Stats.ActiveLabel | app/routers/stats.py:95-98 | an active branch's Korean label is shown, otherwise the code itself |
| Stats.BranchRegisteredAtMostCounseling | app/routers/stats.py:45-64 | a branch never has more registered than counseling sessions, so its registration rate is at most 1 |
| Stats.TotalDbRule | app/routers/stats.py:88-91 | a branch row uses the team's lead sum when a team with a positive sum is given, and otherwise the branch's own count |
| Stats.BranchStats | app/routers/stats.py:83-104 | the loop produces one branch row per reported code, in order |
| Stats.ListedSubjects | app/routers/stats.py:107-110 | the listed subjects are exactly the active ones of the branch filter |
| Stats.RequestRateAtMostOne | app/routers/stats.py:139-151 | per requested subject, registered never exceeds counseling, so the rate is at most 1 |
| Stats.SubjectRequestStats | app/routers/stats.py:139-151 | the loop produces one requested-subject row per listed subject, in order |
| Stats.RegisteredBasisDenominator | app/routers/stats.py:166-172 | the registered-basis rate divides the sessions registered as the subject by those that requested it |
| Stats.RegisteredBasisCanExceedOne | app/routers/stats.py:166-180 | a concrete table in which the registered-basis rate is 2 |
| Stats.SubjectRegisteredStats | app/routers/stats.py:166-180 | the loop produces one registered-subject row per listed subject, in order |
| Stats.CardRatesAtMostOne | app/routers/stats.py:182-201 | both card registration rates are between 0 and 1 |
| Stats.ZeroTeamSumDiverges | app/routers/stats.py:186-191 | with a team whose lead sum is 0 the card's counseling rate is null while the branch rows fall back to branch counts |
| Stats.CodeCountsAddUp | app/routers/stats.py:183-184 | for distinct codes, the per-code counts add up to the count of sessions whose branch is one of them |
| Stats.StatSums | app/routers/stats.py:183-184 | the card totals are the sums of the branch rows' counts |
| Stats.ComputeOverview | app/routers/stats.py:19-214 | the overview has the default range, one row per reported branch and per listed subject, card totals equal to the sessions counted, and card registration rates in [0, 1] |
| DailyDb.KeyIndex | app/routers/daily_db.py:20 | the first row with the date and code, or the table length when none has them |
| DailyDb.UpsertedRows | app/routers/daily_db.py:20-25 | the upsert rewrites the count of the one row with the key, or appends a new row; every other row stays |
| DailyDb.UpsertedExactlyOne | app/routers/daily_db.py:20-25 | after the upsert exactly one row has the key and it holds the new count |
| DailyDb.UpsertIdempotent | app/routers/daily_db.py:18-27 | repeating an upsert changes nothing further |
| DailyDb.UpsertKeepsInvariant | app/routers/daily_db.py:18-27 | the upsert keeps keys and ids unique |
| DailyDb.DailyLeIsPreorder | app/routers/daily_db.py:31 | date descending, then code, is a total preorder |
| DailyDb.ListDaily | app/routers/daily_db.py:29-32 | the list is a permutation of the table, newest day first and by code within a day |
| DailyDb.DailyCountTable.Upsert | app/routers/daily_db.py:17-27 | the table becomes the reference upsert, and takes a new id only when the key was new |
| Meta.CodeIndex | app/routers/meta.py:26 | the first row with the code, or the table length when none has it |
| Meta.UpsertedCodeRows | app/routers/meta.py:26-31 | the upsert rewrites the label and flag of the row with the code, or appends it; other rows stay |
| Meta.UpsertedOneCode | app/routers/meta.py:26-31 | after the upsert codes are unique and exactly one row carries the payload |
| Meta.UpsertCodeIdempotent | app/routers/meta.py:24-33 | repeating an upsert changes nothing further |
| Meta.ToggledRows | app/routers/meta.py:36-41 | an unknown code is a 404; otherwise only that row changes, and only in its flag |
| Meta.ToggleTwice | app/routers/meta.py:39 | toggling twice restores the table |
| Meta.CodeLeIsPreorder | app/routers/meta.py:21 | the order by code is a total preorder |
| Meta.ListCodes | app/routers/meta.py:16-22 | the list holds exactly the rows with the requested flag (all when none is given), ordered by code |
| Meta.MetaTable.Find | app/routers/meta.py:26 | the position of the row with the code, or the table length |
| Meta.MetaTable.Upsert | app/routers/meta.py:24-33 | the table becomes the reference upsert and keeps its codes unique |
| Meta.MetaTable.Toggle | app/routers/meta.py:35-41 | an unknown code is a 404 that changes nothing; otherwise the flag is flipped and the code and new flag are returned |
| Labels.CodeLabel | app/services/labels.py:6-9 | an empty code gives "", a stored code its Korean label, and an unknown code itself |
| Labels.LabelOfStoredCode | app/services/labels.py:8-9 | with unique codes, a stored row's code shows that row's label |
| Labels.ModeLabel | app/services/labels.py:16-17 | remote shows "비", offline "오프", an empty mode "", and any other mode itself |
| Labels.ModeLabelsDistinct | app/services/labels.py:4 | the two modes have distinct labels and only an empty mode shows "" |
| Subjects.NameLeIsPreorder | app/routers/subjects.py:13 | the order by name is a total preorder |
| Subjects.Views | app/routers/subjects.py:13 | one view per subject, in order |
| Subjects.ListSubjects | app/routers/subjects.py:9-13 | the list shows exactly the active subjects of the branch filter, ordered by name |
| Subjects.ListAllActive | app/routers/subjects.py:10-13 | without a branch filter every active subject is listed once |
| Mismatch.NewestFirstIsPreorder | app/routers/views.py:70 | date descending, then start time, is a total preorder |
| Mismatch.MismatchRows | app/routers/views.py:56-70 | the page selects exactly the registered sessions in range whose two subjects differ and that match the filters, newest first then by start |
| Mismatch.TimeTextShape | app/routers/views.py:82 | the time column is "HH:MM~HH:MM" and splits back into the start and end clocks |
| Mismatch.SubjectName | app/routers/views.py:72-75 | a missing or unknown subject shows "", a known one its name |
| Mismatch.CounselorName | app/routers/views.py:79-85 | an unknown counselor shows "", a known one its name |
| Mismatch.Items | app/routers/views.py:77-90 | one formatted item per selected session, in order |
| Mismatch.AppendEach | app/routers/views.py:77-80 | the loop appends the i-th item for the i-th row |
| Mismatch.MismatchPage | app/routers/views.py:42-97 | the page shows the default range and one item per selected session, in order |
| Mismatch.ShownAreMismatches | app/routers/views.py:56-65 | every shown session is registered, in range, and has two different subjects |

## Left out

- The DOM, rendering, `alert`, `confirm` and page reloads are not modelled. The views are the values the script draws from, and a confirmation is a parameter.
- HTTP and `fetch` are not modelled. Requests are values, and a fetch's outcome is a parameter of the function that uses it.
- The database, the ORM and transactions are not modelled. Tables are in-memory sequences of rows, with database ids taken from a counter (`nextId`).
- The session table is a sequence, not a map. Its order is the table order, which decides how equal keys are ordered in `list_sessions`.
- The store invariants (unique ids, unique codes, unique keys) are assumed to hold for the stored rows, since only the modelled endpoints write them.
- Time zones and daylight saving are not modelled: every day is 24 hours long.
- Calendar.DateInputRoundTrip, Calendar.MakeDateOfCivil and the month-grid lemmas hold from year 100 on. JavaScript's 0..99 year remap is modelled, but two-digit years do not round-trip.
- `localeCompare` is modelled as code-point order, because locale collation tables are outside the model.
- Floating point is not modelled. Rates and pixel values are exact rationals: the dashboard's percentages and float sorts (app/static/script.js:287, 318, 335), and `posTopPx`, `heightPx` and the click rounding (app/static/script.js:73, 79, 397). Doubles agree with these values on the half-hour grid. Off the grid they can differ in the last bits (a 3-minute offset gives 2.4000000000000004 px).
- Races between overlapping fetches are not modelled: each request is taken to complete before the next. In particular, the edit form's subject selects are taken to be filled (app/static/script.js:195-197) before the save is pressed.
- `toMonthInput` and `fromMonthInput` (app/static/script.js:42-48) are not modelled. They only format the month picker.
- Mismatch.ItemOf keeps the session date as a date rather than its ISO text, because date formatting is covered by the calendar module.
- The clock is not modelled: `today` is a parameter.
- Text.JsNumber covers digit strings only. A sign, a decimal point or surrounding spaces give no number, whereas JavaScript's `Number` would accept them; form fields hold only digits.
- `app/main.py`, the template routes, `app/routers/counselors.py` and the single-session GET are not part of this model.
- Stats.ComputeOverview states the card totals as counts of sessions only when the branch table's codes are unique, the invariant `Meta.MetaTable` keeps. With a duplicate code a session would be counted once per duplicate.
- Client.FormFor: the mode, status and cancel-reason selects take their options from the page template, and the template is not part of this model. They are taken to offer every stored value, so those three fields are not cleared.
