# Doctor appointment booking backend, modelled in Dafny

This project models the decision logic of an Express and PostgreSQL backend that
books doctor appointments. The database is a value of `Schema.Tables` with one
sequence of rows per table plus the serial counters. `Schema.Database` is a class
that holds the same tables as fields, with one method per SQL statement the
handlers run.

Each request handler appears twice:

- a pure function, such as `AppointmentController.Book`. It returns the reply
  together with the new tables in a `Schema.Handled`.
- a method over a `Database`, such as `AppointmentController.CreateAppointment`.
  It runs the statements in the source's order, rolls back where the source
  rolls back, and is proved equal to the function.

The properties are lemmas about the functions.

Modules follow the source files:

- `DoctorController`:
  - the 15-day availability window, with the weekday remap, grouping by weekday and the booked marking;
  - the doctor listing's query builder;
  - the id checks.
- `AppointmentController`:
  - booking admission;
  - the status workflow with its notification e-mail;
  - cancelling;
  - the per-status counts.
- `AdminDoctorController`: creating a doctor with the default Monday–Friday grid, the COALESCE update, the cascading delete, and the availability toggle.
- `ReviewController`: creating a review (validation, eligibility, one review per patient and doctor, the rating aggregate), the unvalidated status write, and the review listing's id check.
- `AdminAppointmentController`: the appointment search builder with its numbered placeholders, sort whitelists and paging, and the three-status console update.
- `AdminDashboardController`: the dashboard counts and the controller's own time formatter.
- `TimeUtils`: the shared 12-hour time formatter.
- `EmailTemplates`: the status e-mail subjects and bodies.

Three support modules:

- `Js` models the JavaScript primitives the handlers rely on: `parseInt`, `Number` on strings, `%` on negative operands, `padStart`, `split`, `includes` and `toLowerCase`.
- `QueryText` models SQL text built from literal pieces and `$n` placeholders, and the invariant that placeholder *n* names `params[n-1]`.
- `Schema` holds the tables.

Dates are day numbers counted from 1970-01-01, which is a Thursday. `Schema.JsGetDay`
is `Date.getDay()` with Sunday = 0. Times of day are `TimeUtils.Clock` values, and
the database hands them back as "HH:MM:SS" text (`TimeUtils.PgText`).

The status handlers use three different whitelists:

| handler | accepts |
|---|---|
| appointmentController.js | four statuses; `completed` only from `confirmed` |
| adminAppointmentController.js | pending, confirmed, cancelled |
| reviewController.js | any string, but only for administrators |

The model keeps all three apart. In particular:

- appointmentController.js lets any of the four statuses follow a cancelled or completed appointment; only `completed` requires the current status `confirmed`.
- reviewController.js writes whatever status text an administrator sends.
- Booking looks the weekday up with `getDay()`, which gives 0 for Sunday, while availability rules number Sunday 7 (see "## Findings").
- The booking guard (appointmentController.js:168-183) skips appointments that are cancelled or rejected; every other status occupies the slot.

## Model

| member | source | states |
|---|---|---|
| DoctorController.ViewWeekday | src/controllers/doctorController.js:339 | the weekday the view uses is always in 1..7 |
| DoctorController.ViewWeekdayRemap | src/controllers/doctorController.js:339 | Sunday (0) becomes 7 and 1..6 are kept; the result is the JavaScript weekday modulo 7 |
| DoctorController.WeekCoversEveryWeekday | src/controllers/doctorController.js:336-339 | seven consecutive days take every weekday 1..7, each exactly once |
| DoctorController.JoinRules | src/controllers/doctorController.js:283-285 | a pattern row is present iff the doctor has an enabled rule for that weekday and slot and the slot exists |
| DoctorController.KeyIsLexicographic | src/controllers/doctorController.js:286 | the sort key orders by weekday, then by start time |
| DoctorController.SortRowsSorts | src/controllers/doctorController.js:286 | the sorted pattern is ordered and is a permutation of the joined rows |
| DoctorController.PatternQueryRows | src/controllers/doctorController.js:277-289 | the pattern query returns exactly the enabled rules of the doctor joined with their slots, ordered by weekday and start time |
| DoctorController.WrittenTimes | src/controllers/doctorController.js:325-326 | each slot's start and end are written by the shared formatter as "h:mm AM/PM" of the slot's clock |
| DoctorController.OfDayMembers | src/controllers/doctorController.js:318-330 | a weekday's group holds exactly the pattern rows of that weekday |
| DoctorController.OfDayOrdered | src/controllers/doctorController.js:318-330 | grouping keeps the query order |
| DoctorController.DayRowsInStartOrder | src/controllers/doctorController.js:318-330 | within one weekday the slots are in start-time order |
| DoctorController.EntriesOfAt | src/controllers/doctorController.js:323-328 | the i-th entry of a group is the i-th row's slot id and times, marked available |
| DoctorController.BookedQueryRows | src/controllers/doctorController.js:293-304 | a (date, slot) is fetched iff the date is in [from, to) and a non-cancelled appointment of the doctor holds it |
| DoctorController.BookedSetMembers | src/controllers/doctorController.js:308-315 | the set for a date holds exactly the slot ids fetched for that date |
| DoctorController.CollectBooked | src/controllers/doctorController.js:308-315 | the loop over the fetched rows builds, for every date, exactly that date's booked set |
| DoctorController.GroupByDay | src/controllers/doctorController.js:318-330 | the reduce loop builds, for every weekday, the entries of that weekday's rows in query order |
| DoctorController.DaysAt | src/controllers/doctorController.js:335-357 | the k-th day entry is the view of start + k |
| DoctorController.ViewDaySlots | src/controllers/doctorController.js:339-346 | a day's slots are its weekday's rows, each marked by the date's booked set |
| DoctorController.ViewDayMarking | src/controllers/doctorController.js:341-345 | a slot is unavailable iff the fetched rows hold that date and slot |
| DoctorController.ViewDaySameBookings | src/controllers/doctorController.js:341-345 | a day's view depends only on that date's fetched bookings |
| DoctorController.WalkDays | src/controllers/doctorController.js:335-357 | the while loop from start to end inclusive pushes exactly the day views of start..end in order |
| DoctorController.GetDoctorAvailability | src/controllers/doctorController.js:261-360 | an id parseInt cannot read gives 400; a date `new Date` cannot read gives 500; otherwise the reply is the 15-day window of the current tables from the given day |
| DoctorController.WindowShape | src/controllers/doctorController.js:271-272 | the window has 15 entries, the k-th for date start + k |
| DoctorController.WindowAt | src/controllers/doctorController.js:277-357 | the k-th entry is the view of start + k over the pattern and the bookings fetched for [start, start + 14) |
| DoctorController.DaySlotsAreRows | src/controllers/doctorController.js:318-346 | a day's slots are, one for one and in order, the rows of its weekday |
| DoctorController.DayRowsAreRules | src/controllers/doctorController.js:283-286 | a day's rows are exactly the doctor's enabled rules for its weekday, in start-time order |
| DoctorController.ShownSlotHasRule | src/controllers/doctorController.js:283-346 | every slot shown on a day comes from an enabled rule of the doctor for that day's weekday |
| DoctorController.EmptyWeekday | src/controllers/doctorController.js:343 | a weekday without enabled rules gives an empty slot list |
| DoctorController.FetchedMarking | src/controllers/doctorController.js:299-345 | a slot is unavailable iff its date is inside the fetched range and a non-cancelled appointment holds it |
| DoctorController.BookedMarking | src/controllers/doctorController.js:299-345 | in the window, a slot is unavailable iff it is on one of the first 14 days and a non-cancelled appointment holds it |
| DoctorController.LastDayAlwaysAvailable | src/controllers/doctorController.js:299-337 | every slot on day start + 14 is reported available |
| DoctorController.LastDayIgnoresBookings | src/controllers/doctorController.js:299-337 | a booked slot on day start + 14 is still reported available |
| DoctorController.CorrectedBookedMarking | src/controllers/doctorController.js:300 | with the fetch bound at start + 15, a slot is unavailable on every one of the 15 days iff a non-cancelled appointment holds it |
| DoctorController.FetchedRangesAgree | src/controllers/doctorController.js:300 | a day inside both fetched ranges is viewed the same |
| DoctorController.CorrectedAgreesBeforeLastDay | src/controllers/doctorController.js:300 | the corrected window agrees with the original on the first 14 days |
| DoctorController.DoctorConditions | src/controllers/doctorController.js:85-97 | every placeholder names its value in the parameter array; minRating and minExperience come first, then the search pattern, then the specialty |
| DoctorController.GetAllDoctors | src/controllers/doctorController.js:57-154 | a total of 0 gives the empty page; otherwise LIMIT and OFFSET are the last two parameters and placeholders, the LIMIT parameter is the query-string `limit` as given (the number 6 when absent), offset is (page-1)*limit on the coerced numbers, totalPages is ceil(total/limit) |
| DoctorController.CheckDoctorId | src/controllers/doctorController.js:166-169 | 400 exactly when parseInt finds no number; otherwise that number is looked up |
| DoctorController.DoctorIdCheck | src/controllers/doctorController.js:266-268 | decimal ids are accepted as themselves, text without digits is refused |
| QueryText.RenderParam | src/controllers/doctorController.js:89 | the text of a placeholder is "$" followed by its number, read back by parseInt |
| QueryText.BoundExtends | src/controllers/doctorController.js:88-97 | pushing parameters keeps every written placeholder bound to its value |
| QueryText.BoundAppend | src/controllers/adminAppointmentController.js:53-82 | appending clauses whose placeholders are bound keeps the whole query bound |
| QueryText.CeilDiv | src/controllers/doctorController.js:153 | Math.ceil(total / limit): the least r with total <= r * limit for a positive limit |
| QueryText.Offset | src/controllers/doctorController.js:57 | (page - 1) * limit, NaN when either operand is not a number |
| QueryText.TotalPages | src/controllers/adminAppointmentController.js:155 | ceil(total/limit) for a positive limit, null when the quotient is NaN or infinite |
| AppointmentController.CountHoldingPositive | src/controllers/appointmentController.js:168-181 | the COUNT is positive iff some appointment outside cancelled and rejected holds the doctor, date and slot |
| AppointmentController.CreateAppointment | src/controllers/appointmentController.js:144-231 | runs the two guards and the insert, and ends in the state and reply of the booking function |
| AppointmentController.BookReplies | src/controllers/appointmentController.js:145-183 | an invalid date fails; "not available" iff no enabled rule for getDay(); "already booked" iff the rule exists and the slot is taken; booked otherwise |
| AppointmentController.BookEffect | src/controllers/appointmentController.js:185-205 | a refusal writes nothing; a booking appends one pending row of the caller and changes no existing row |
| AppointmentController.RepeatBookingFails | src/controllers/appointmentController.js:168-183 | repeating a successful booking, by anyone, gives "already booked" |
| AppointmentController.CancelAppointment | src/controllers/appointmentController.js:379-394 | runs the cancelling update and ends in the state and reply of the cancel function |
| AppointmentController.CancelAnyStatus | src/controllers/appointmentController.js:381-394 | an unknown id gives 404; otherwise the row becomes cancelled with the timestamp, whatever its status, and no other row changes |
| AppointmentController.CancelThenRebook | src/controllers/appointmentController.js:386 | after a booking is cancelled the same booking succeeds again |
| AppointmentController.SundayNeverBookable | src/controllers/appointmentController.js:147-165 | with weekdays stored as 1..7, a booking on a Sunday is always "not available" |
| AppointmentController.SundayWeekdays | src/controllers/appointmentController.js:147 | on a Sunday getDay() is 0 while the view's weekday is 7 |
| AppointmentController.SundayShownButRefused | src/controllers/appointmentController.js:147 | a slot the view offers on a Sunday is refused by booking |
| AppointmentController.CorrectedAgreesOffSunday | src/controllers/appointmentController.js:147 | booking with the view's weekday agrees with the original on every day but Sunday |
| AppointmentController.OfferedSlotIsBookable | src/controllers/appointmentController.js:147-183 | with the view's weekday, any slot the window shows available on its first 14 days can be booked |
| AppointmentController.RejectedBlocksViewOnly | src/controllers/appointmentController.js:173 | a slot held only by rejected appointments is shown as booked, yet the booking guard counts nothing |
| AppointmentController.UpdateAppointmentStatus | src/controllers/appointmentController.js:239-377 | runs the lookup, the transition check, the update and the e-mail, and ends in the state and reply of the status function; the mail is the one the tables give |
| AppointmentController.UnknownStatusRefused | src/controllers/appointmentController.js:245-247 | a status outside the four gives 400 and changes nothing |
| AppointmentController.StatusTransitions | src/controllers/appointmentController.js:257-290 | the update is applied iff the status is one of the four, the row exists, and completed comes from confirmed; otherwise nothing changes |
| AppointmentController.UpdatedRowsCarryStatus | src/controllers/appointmentController.js:278-285 | the updated row carries the new status and the CURRENT_TIMESTAMP |
| AppointmentController.EmailSoftFailure | src/controllers/appointmentController.js:326-363 | the e-mail never changes the outcome or the tables; the report is sent iff the patient has an address and delivery succeeds |
| AppointmentController.StatusMailContents | src/controllers/appointmentController.js:327-344 | the mail goes to the patient's address with the status subject and names patient and doctor |
| AppointmentController.CountStatus | src/controllers/appointmentController.js:39-42 | a per-status count never exceeds the number of rows |
| AppointmentController.StatsPartition | src/controllers/appointmentController.js:37-43 | the four counts plus the rows of any other status give the total |
| AdminDoctorController.DayRow | src/controllers/adminDoctorController.js:89-91 | one rule per catalogue slot for one day |
| AdminDoctorController.BuildDefaultAvailability | src/controllers/adminDoctorController.js:86-92 | the nested loops push exactly the default grid, day by day and slot by slot |
| AdminDoctorController.DayRowMembers | src/controllers/adminDoctorController.js:89-91 | a day's rows are exactly the enabled rules of that doctor and day for slots in the catalogue |
| AdminDoctorController.GridLength | src/controllers/adminDoctorController.js:88-92 | n days give n times the catalogue size rows |
| AdminDoctorController.GridMembers | src/controllers/adminDoctorController.js:88-92 | the grid holds exactly the enabled rules for days 1..n and catalogue slots |
| AdminDoctorController.DefaultGridShape | src/controllers/adminDoctorController.js:86-92 | 5 × slots rows, every day within Monday to Friday, every weekday-slot pair present |
| AdminDoctorController.OrNull | src/controllers/adminDoctorController.js:73-74 | `v \|\| null`: present iff the value is truthy, and then the value itself |
| AdminDoctorController.CreateDoctorHandler | src/controllers/adminDoctorController.js:20-101 | runs the checks, the inserts and the rollback, and ends in the state and reply of the create function |
| AdminDoctorController.CreateReplies | src/controllers/adminDoctorController.js:20-99 | 400 iff a required field is falsy; 400 iff the e-mail is registered; 500 iff the catalogue is empty; created otherwise |
| AdminDoctorController.CreateRefusalsWriteNothing | src/controllers/adminDoctorController.js:21-33 | a refusal writes nothing; a failed grid insert rolls back users, doctors and availability |
| AdminDoctorController.CreatedDoctorRow | src/controllers/adminDoctorController.js:43-99 | one user with role doctor and one doctor row with is_available, no rating, zero reviews, null location/fee when falsy, and the default grid added |
| AdminDoctorController.UpdateDoctorHandler | src/controllers/adminDoctorController.js:140-182 | runs the lookup and the two updates, and ends in the state and reply of the update function |
| AdminDoctorController.UpdateMerges | src/controllers/adminDoctorController.js:141-180 | an unknown doctor changes nothing; otherwise each of the six doctor fields (specialty, degree, experience, bio, location, fee) becomes the given value or keeps the old one while id, user, availability and rating stay, other doctors stay; when a truthy name or e-mail is given the doctor's user gets the merged name and e-mail and every other user stays, and otherwise users are untouched; every other table and serial stays |
| AdminDoctorController.DeleteDoctorHandler | src/controllers/adminDoctorController.js:206-228 | runs the four deletes, and ends in the state and reply of the delete function |
| AdminDoctorController.DeleteCascades | src/controllers/adminDoctorController.js:207-228 | an unknown doctor changes nothing; otherwise exactly that doctor's rules, appointments, row and user are removed, and reviews, time slots, specialties and every serial stay |
| AdminDoctorController.ToggleHandler | src/controllers/adminDoctorController.js:245-263 | runs the type check and the update, and ends in the state and reply of the toggle function |
| AdminDoctorController.ToggleSets | src/controllers/adminDoctorController.js:253-263 | 404 iff the doctor is unknown; otherwise is_available becomes exactly the given value and nothing else changes |
| ReviewController.ReviewsDoctorId | src/controllers/reviewController.js:7-11 | 400 iff parseInt gives NaN or 0 |
| ReviewController.ReviewsDoctorIdCheck | src/controllers/reviewController.js:7-11 | a non-zero decimal id passes as itself; "0" and text without digits are refused |
| ReviewController.DoctorReviews | src/controllers/reviewController.js:20-22 | exactly the doctor's reviews whose author exists |
| ReviewController.CreateReviewHandler | src/controllers/reviewController.js:46-150 | runs the guards, the insert, the aggregate, the doctor update and the rollback, and ends in the state and reply of the review function |
| ReviewController.ReviewReplies | src/controllers/reviewController.js:52-86 | 400 iff the input is invalid; 403 iff no completed appointment; 400 iff already reviewed; added iff all pass and no statement fails |
| ReviewController.FailureWritesNothing | src/controllers/reviewController.js:140-141 | any refusal or failed statement leaves reviews, doctors and appointments unchanged |
| ReviewController.AddedReviewRerates | src/controllers/reviewController.js:107-131 | after an insert the doctor's row holds the count and sum of all its reviews, one more than before and the new rating added; only that doctor's rating and count change, and every other doctor, table and serial stays |
| ReviewController.CreateKeepsRatingsInRange | src/controllers/reviewController.js:52-54 | the insert keeps every stored rating within 1..5 |
| ReviewController.AggregateInRange | src/controllers/reviewController.js:108-116 | with ratings in range, count <= sum <= 5 × count, so the average is within 1..5 |
| ReviewController.SecondReviewRefused | src/controllers/reviewController.js:74-86 | a second review of the same doctor by the same patient gives 400 |
| ReviewController.CreateKeepsOneReviewEach | src/controllers/reviewController.js:74-105 | no patient ever has two reviews of one doctor |
| ReviewController.WriteStatusHandler | src/controllers/reviewController.js:153-218 | runs the role gate, the joined lookup and the update, and ends in the state and reply of the write function |
| ReviewController.WriteUnvalidated | src/controllers/reviewController.js:160-203 | non-administrators get 401 and nothing changes; 500 iff the id does not parse, 404 iff the joined row is missing, and neither changes anything; the write happens iff the id parses and the joined row exists, and it sets any status text and `now` on that id's rows, leaving every other row and table as it was |
| ReviewController.RejectedWriteReleasesBooking | src/controllers/reviewController.js:196-203 | a written `rejected` status no longer holds the slot for booking |
| AdminAppointmentController.FilterParamsShape | src/controllers/adminAppointmentController.js:53-82 | one parameter per active filter; no filter, no parameter |
| AdminAppointmentController.AddFilter | src/controllers/adminAppointmentController.js:53-82 | one filter step keeps paramCount = params.length + 1 and every placeholder bound |
| AdminAppointmentController.SearchConditions | src/controllers/adminAppointmentController.js:49-82 | the pushed parameters are the active filters in order, paramCount ends at params.length + 1, every placeholder is bound |
| AdminAppointmentController.FinalSortBy | src/controllers/adminAppointmentController.js:85-87 | always a whitelisted column: the given one if valid, else (absent or not whitelisted) appointment_date |
| AdminAppointmentController.FinalSortOrder | src/controllers/adminAppointmentController.js:88-89 | its lower case is asc or desc: the given text, in its case, if valid, else (absent or not whitelisted) desc |
| AdminAppointmentController.SearchAppointments | src/controllers/adminAppointmentController.js:85-100 | ORDER BY uses the whitelisted words; LIMIT and OFFSET are placeholders paramCount and paramCount + 1 and the last two parameters; the count query uses all but those two |
| QueryText.RewriteFindsFirstClose | src/controllers/doctorController.js:100 | with the `s` flag the first `open` and the first `close` after it, across line breaks, are replaced and the rest of the text is kept |
| QueryText.RewriteMissesLineBreak | src/controllers/adminAppointmentController.js:99 | without the `s` flag a text whose only `open` is followed by a line break is left unchanged |
| DoctorController.ListingCountQuery | src/controllers/doctorController.js:100-102 | the listing's count query replaces its multi-line select list with `COUNT(*) as total` and keeps its joins and WHERE clause |
| AdminAppointmentController.ReadTotal | src/controllers/adminAppointmentController.js:99-101 | a COUNT(*) query reads back the number of matching rows; the row query reads NaN, or throws when nothing matches |
| AdminAppointmentController.CountQueryAsWritten | src/controllers/adminAppointmentController.js:19-101 | the search's count query is the row query unchanged, so its total is NaN when rows match and a thrown error when none do |
| AdminAppointmentController.CountQueryCorrected | src/controllers/adminAppointmentController.js:99-101 | with the `s` flag the count query selects `COUNT(*)` over the same joins and reads back the number of matching rows |
| AdminAppointmentController.ConsoleUpdateHandler | src/controllers/adminAppointmentController.js:165-192 | runs the whitelist and the update, and ends in the state and reply of the console function |
| AdminAppointmentController.ConsoleReplies | src/controllers/adminAppointmentController.js:170-185 | 400 iff the status is not pending, confirmed or cancelled; updated iff the row exists; the row keeps its updatedAt |
| AdminAppointmentController.ConsoleNeverCompletes | src/controllers/adminAppointmentController.js:170-172 | no completed row is ever created by the console |
| AdminDashboardController.DashboardRows | src/controllers/adminDashboardController.js:28-34 | the listed rows are exactly the appointments whose joins succeed |
| AdminDashboardController.DashboardCountsShort | src/controllers/adminDashboardController.js:85-90 | confirmed + pending + cancelled is the total minus the completed and other rows, hence at most the total |
| AdminDashboardController.CompletedUncounted | src/controllers/adminDashboardController.js:85-90 | a completed row raises only the total |
| AdminDashboardController.DashboardFormat | src/controllers/adminDashboardController.js:158-187 | never throws; falsy and invalid Dates give null; a valid Date formats as with the shared formatter |
| AdminDashboardController.MinutesVerbatim | src/controllers/adminDashboardController.js:163-167 | the string branch shows the minutes as given and coerces only the hours |
| AdminDashboardController.UnpaddedMinutesDiffer | src/controllers/adminDashboardController.js:163-167 | "9:5" shows as "9:5 AM" here and "9:05 AM" in the shared formatter |
| AdminDashboardController.AgreeOnPgText | src/controllers/adminDashboardController.js:163-167 | on database TIME text both formatters agree |
| AdminDashboardController.NullWhereSharedFails | src/controllers/adminDashboardController.js:171-175 | an invalid Date, or a string without a colon whose Date is invalid, gives null, where the shared formatter shows "12:NaN AM" or throws |
| TimeUtils.TwoDigits | src/utils/timeUtils.js:9 | two digit characters whose value is the number |
| TimeUtils.DisplayHour | src/utils/timeUtils.js:8 | for hours 0..23 the display hour is in 1..12 and congruent to the hour modulo 12 |
| TimeUtils.FormatTime | src/utils/timeUtils.js:1-23 | falsy input and values neither string nor Date give null; a Date always gives a display |
| TimeUtils.ClockDisplay | src/utils/timeUtils.js:13-19 | a Date shows "h:mm AM/PM" with h = hours % 12 or 12, two-digit minutes, PM exactly from noon |
| TimeUtils.InvalidDateDisplay | src/utils/timeUtils.js:13-19 | an invalid Date shows "12:NaN AM" |
| TimeUtils.NoColonThrows | src/utils/timeUtils.js:5-10 | a non-empty string without a colon throws |
| TimeUtils.SplitPgText | src/utils/timeUtils.js:6 | TIME text splits into its three two-digit fields |
| TimeUtils.FormatPgText | src/utils/timeUtils.js:5-10 | TIME text reads back its own hours and minutes |
| TimeUtils.TextAndDateAgree | src/utils/timeUtils.js:5-19 | TIME text formats exactly like a Date with the same hours and minutes |
| EmailTemplates.SubjectNamesTemplate | src/utils/emailTemplates.js:8-77 | the five subjects are distinct: one subject for two statuses means the same status or two without a template |
| EmailTemplates.BodyNamesParties | src/utils/emailTemplates.js:11-90 | every body names the patient, the doctor and the "start - end" time line |
| EmailTemplates.LetterNamesParties | src/utils/emailTemplates.js:78-88 | a letter contains the patient, the doctor, the time line and its sentence |
| EmailTemplates.FallbackNamesStatus | src/utils/emailTemplates.js:76-81 | any other status gets "Appointment Status Update" and a body naming the status |
| EmailTemplates.ContainsPart | src/utils/emailTemplates.js:11-23 | each interpolated piece occurs in the built text |

## Left out

- Date arithmetic and formatting (`new Date`, `toISOString`, date-fns `startOfDay`, `addDays` and `format`, `toLocaleDateString`) become day numbers with a weekday function. The server is assumed to run in UTC, so a date and its `getDay()` agree. The formatted locale date of the e-mail is a parameter.
- The `dd`, `EEE` and `MMM` labels of a day entry are presentational and are not modelled. A day is identified by its `fullDate` day number.
- DoctorController.SlotEntry keeps the slot's start and end time as clocks. The text the shared formatter writes for them is `DoctorController.Written`, proved in `WrittenTimes`.
- SQL execution, the pool and transactions. Each statement is a `Database` method, and a rollback restores the saved tables. The serial counters are not restored, as with PostgreSQL sequences.
- The race between the booking guards and the insert. It is a concurrency issue.
- Foreign-key, unique and NOT NULL constraints are not modelled. Primary keys are assumed unique.
- A failed statement other than the review transaction's and the empty availability insert is not modelled. `ReviewController.Fault` names which statement of that transaction fails.
- The row order of SQL `ORDER BY` among equal keys is not modelled. The pattern query is a stable sort of the joined rows.
- The review listing's `ORDER BY created_at DESC` is not modelled. Reviews carry no timestamp, so `DoctorReviews` states membership only.
- The regular-expression rewrites of the row queries into count queries are modelled by `QueryText.ReplaceFirst` for patterns of the form literal, lazy `.*?`, literal, with and without the `s` flag. The handlers' select heads are not written out as constants: the count lemmas hold for every head of the shape the handlers write, a line with `SELECT` followed by column and join lines, and the number of rows the count finds is a parameter.
- Password hashing (bcrypt) is a parameter `hash`.
- Sending e-mail is a parameter `delivered`, the outcome of the SendGrid call.
- Authentication, sessions and route wiring (passport, session config, routes, the startup file and the seed script) are not modelled. The caller's id and role are parameters.
- userController.js, locationController.js, getTopDoctors, getDoctorById beyond its id check, getAppointmentById and getDoctorAppointmentsForUser are not part of this model. These are profile, lookup and renaming queries.
- The dashboard's doctor list is not modelled. It is a grouped presentational join.
- The JSON field renaming in every handler is presentational and is not modelled.
- avg_rating is the pair (sum, count) of `Schema.Mean`, not a decimal, because reals and `toFixed` formatting are left out. Ratings are integers; fractional ratings are not modelled.
- JavaScript `Number` on strings is modelled for the empty string and unsigned decimal digits; any other text is NaN. Signs, whitespace, exponents and hexadecimal are not modelled. `parseInt` without a radix is modelled with the leading white space ECMAScript skips (tab, vertical tab, form feed, space, U+00A0, U+FEFF, the other Unicode space separators U+1680, U+2000-U+200A, U+202F, U+205F and U+3000, and the line terminators LF, CR, U+2028 and U+2029), an optional sign, the `0x`/`0X` hexadecimal prefix, and the longest digit prefix of the radix.
- Request bodies are typed: a field is either absent or a value of the expected type. Values of other JSON types are not modelled, for example `is_available` given as a string (which `ToggleHandler` refuses) or a status given as an array.
- ReviewController.WriteStatus: the status is a present string. An absent status would write NULL, which is not modelled.
- AppointmentController.UpdateStatus: the second "not found" check after the update cannot fire once the row was found, so it is not given a branch.
- The check in reviewController.js:189-193 that a doctor owns the appointment is not given a branch. It only runs for the doctor role, and the role gate before it admits administrators only.
- `templates[status]` for a status such as "constructor", which names an inherited object property, is not modelled. The four statuses and the fallback are.
- HTML whitespace in the e-mail bodies is normalised. The letters keep every interpolated piece and the fixed wording, but not the indentation.

## Findings

| source | as written | input that shows it | evidently intended | confidence | as-written member | corrected member |
|---|---|---|---|---|---|---|
| src/controllers/appointmentController.js:147 | booking looks up the rule with `getDay()`, which gives 0 on Sundays, while rules and the view use 7 for Sunday | day 3 (Sunday 1970-01-04) with an enabled rule (doctor, 7, slot): the view offers the slot, booking answers "not available" | look the rule up with the view's weekday (Sunday = 7) | not executed | AppointmentController.SundayShownButRefused | AppointmentController.OfferedSlotIsBookable |
| src/controllers/doctorController.js:300 | the booked query stops before start + 14 (`< endDate`) while the loop shows start + 14 (`<= endDate`) | a pending appointment on day start + 14 for a slot the doctor offers that weekday: the window shows the slot available | fetch bookings through the last shown day | not executed | DoctorController.LastDayIgnoresBookings | DoctorController.CorrectedBookedMarking |
| src/controllers/adminAppointmentController.js:99 | `/SELECT .*? FROM/` has no `s` flag, and the search's query puts a line break right after `SELECT `, so nothing matches and the count query is the row query itself; `rows[0].count` is then undefined | GET /admin/appointments with any filters: when some appointments match, `parseInt(undefined)` is NaN and the reply's total and totalPages are null; when none match, `rows[0]` is undefined and the handler answers 500 | rewrite the select list to `COUNT(*)`, as the doctor listing's `/SELECT.*?FROM/s` does | not executed | AdminAppointmentController.CountQueryAsWritten | AdminAppointmentController.CountQueryCorrected |
