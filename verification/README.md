# Class attendance monitoring — a Dafny model of the attendance-session engine

This project models the core of a classroom-attendance system. Professors
create classes and give each one weekly schedules. Students join a class with
its six-character class code. While a schedule is in session, the professor
opens an attendance session and scans the QR code each student shows, which
carries the student's name. Students can also attend by presenting the
class's own QR token. The model covers three versions of that engine:

- the Django application (`professor/`, `student/`);
- the older copy of it under `attendance/`;
- the React prototype of the professor pages (`exampleForProfessorpage/`).

The database is a class `Database.Db` whose fields are the tables, each a
sequence:

- classes, schedules, extra classes;
- attendance records, attendance entries, enrollments.

Schedules and enrollments are kept in their models' query order. The other
tables are kept in creation order; the views that need the `-date` order of
attendance records compute it from the dates (`ProfessorViews.LatestSession`).

Its invariant `Valid()` holds every declared uniqueness constraint and
foreign key, and one rule the views keep without any database constraint: no
two same-day schedules of a class overlap. A second such rule, at most one
attendance record per (class, Manila date, session label)
(`Models.RecordsKeyed`), is kept by `professor/views.py` only. That copy
stores Manila local time and looks up the Manila date. The `attendance/` copy
looks up the UTC date and can break the rule (see Findings).

Each view is a `method` on a `Db`. It is proved against a pure function of the
old tables that gives the view's answer, for example
`out == ScanAnswer(old(...))`, together with the exact new contents of every
table it writes. The properties of the views are then lemmas about those
answer functions.

Inputs that come from outside the program are parameters:

- the clock: the weekday, date and time of day;
- the random source of class codes: a finite stream of picks;
- the age of a QR token;
- the fields already read out of a JSON body.

The React handlers are pure functions from the component's state to the new
state.

Notes on what the code does:

- **Conflict test.** The code uses a three-clause test.
  `Scheduling.ThreeClauseIsOverlap` proves it is half-open overlap on valid
  ranges.
- **End boundary.** Python compares `now.time()`, microseconds included, so a
  schedule ending at 10:30 still matches at 10:30:00.000000 and at no later
  instant (`Scheduling.EndBoundaryExact`). The prototype drops the seconds and
  still matches during the whole last minute (`ClassDetailView.EndMinuteDiffers`).
- **Duplicate checks.** A duplicate enrollment or attendance entry is refused
  by an `exists()` check before the insert.
- **Clocks.** The server runs with `USE_TZ = True` and
  `TIME_ZONE = 'Asia/Manila'` (UTC+8, no daylight saving). A stored date-time
  is modelled by its Manila wall-clock reading, which is what a `date__date`
  lookup compares. `professor/views.py` converts the clock to Manila time
  before it takes the weekday, the time and the date. `attendance/professor/views.py`
  takes all three from `timezone.now()`, in UTC, and stores that instant,
  which reads back as `Clock.Manila(now)`. `student/views.py` keys canceled
  sessions by `record.date.date()`, the UTC date (`Clock.UtcDate`). The clock
  reading is a parameter of every view.
- **Whitespace.** Python's `strip()` and JavaScript's `trim()` remove
  different sets of characters (`Text.StripsDiffer`). The Django forms and
  views use the first and the prototype the second.
- **Unknown class.** A missing class inside the `try` of `verify_qr_code` and
  `process_qr_scan` is caught by `except Exception`. It becomes a 500 answer
  (`NoSuchClass`, `UnknownClass`). So does `MultipleObjectsReturned` from
  `get_or_create` (`LedgerClash`); `activate_qr_scanning` does not catch it
  (`ServerError`).
- **Order of checks in the scan.** The `attendance/` copy of `process_qr_scan`
  resolves the student before the schedule. A JSON `null` name makes it raise
  (`MalformedName`). `CopiesAgreeInWindow`, `UnknownNameOutsideWindow` and
  `NullNameDiffers` state how the two copies differ.
- **Extra sessions and cancellations.** No view checks an extra session for
  conflicts or toggles a cancellation. Only the `ExtraClass` rows and the
  `canceled` flag are modelled.
- **QR tokens.** `professor/views.py` never writes `qr_code_data`. Its
  `verify_qr_code` can therefore only find sessions that the other copy's
  activation stored (`ProfessorViews.VerifyNeedsPayload`).
- **Next-schedule fallback.** The prototype's final fallback in
  `getNextSchedule` cannot be reached (`ClassCard.NeverFallsBack`).

## Model

| member | source | states |
|---|---|---|
| Scheduling.ThreeClauseIsOverlap | professor/views.py:145-156 | for ranges with start < end, the three-clause conflict test is exactly half-open overlap `s < ee && e > es` |
| Scheduling.TouchingAccepted | professor/views.py:152-154 | ranges that only touch (one ends where the other starts) are not a conflict |
| Scheduling.FindConflict | professor/views.py:148-156 | the conflict loop reports a conflict iff some same-day existing schedule passes the three-clause test (the loop at attendance/professor/views.py:116-124 is identical) |
| Scheduling.OtherDaysIgnored | professor/views.py:140-143 | adding schedules on other days to the existing list never changes whether the candidate conflicts |
| Scheduling.NoConflictMeansDisjoint | professor/views.py:145-158 | on valid ranges, "no conflict" holds iff the candidate overlaps no same-day existing schedule |
| Scheduling.AcceptedKeepsConflictFree | professor/views.py:148-158 | appending an accepted valid schedule to a valid, pairwise non-overlapping list keeps it valid and non-overlapping |
| Scheduling.AcceptedIsNotDuplicate | professor/models.py:70 | an accepted candidate is never already in the list, so the unique_together constraint cannot fire |
| Scheduling.ActiveIndex | professor/views.py:15-27 | the result is absent iff no schedule is on today with start <= now <= end; otherwise it is the first such index |
| Scheduling.GetActiveSchedule | professor/views.py:15-27 | the loop returns the schedule at the first matching index, or None when there is none (attendance/professor/views.py:15-27 is identical) |
| Scheduling.FirstWithinIsActive | professor/views.py:24-26 | when several schedules contain now, the first one in iteration order wins |
| Scheduling.BoundariesInclusive | professor/views.py:25 | a schedule is active at its exact start and at its exact end |
| Scheduling.EndBoundaryExact | professor/views.py:22-25 | within the end minute, a schedule is active only at second 0 and microsecond 0 |
| Scheduling.OtherDayNeverActive | professor/views.py:21-24 | a schedule on another weekday is never active |
| Scheduling.Label | professor/views.py:229 | the session label `"HH:MM - HH:MM"` is 13 characters long |
| Scheduling.LabelRoundTrip | professor/views.py:229 | the label parses back to the schedule's start and end times |
| Scheduling.LabelInjective | professor/views.py:229 | two schedules have the same label iff their start and end times are equal |
| Clock.DayRankIsNameOrder | professor/models.py:69 | ordering schedules by `day` sorts the day names alphabetically, and the rank used by the model is that order |
| Clock.Manila | attendance/settings.py:116-118 | the Manila reading of a UTC date-time is the same instant eight hours later on the time line, on the same or the next date |
| Clock.UtcDate | attendance/settings.py:116-118 | the UTC date of a Manila reading is the day whose UTC span contains the instant |
| Clock.UtcDateOfManila | attendance/settings.py:116-118 | the UTC date of the Manila reading of a UTC date-time is its own date |
| Clock.ManilaDateAhead | attendance/settings.py:116-118 | the Manila date is the next day exactly from 16:00 UTC to midnight |
| Clock.JsDayIndex | exampleForProfessorpage/src/app/components/ClassCard.tsx:50-55 | a weekday's position in the Sunday-first array maps back to that weekday |
| Text.StripsDiffer | professor/views.py:354 | Python's `strip()` removes the separator U+001C, which JavaScript's `trim()` keeps, and `trim()` removes U+FEFF, which `strip()` keeps |
| Text.TrimEmptyIffAllSpace | professor/views.py:354-357 | for either language's whitespace, a stripped text is empty iff the text is all whitespace |
| Text.TrimIdempotent | professor/views.py:390 | stripping twice is stripping once |
| Text.TrimSurroundingSpace | professor/views.py:354 | stripping keeps one contiguous piece of the text and removes only whitespace before and after it |
| Text.UpperLower | attendance/student/forms.py:20 | upper-casing a lower-cased code with no lowercase letters gives the code back |
| TimeFormat.DisplayHour | attendance/student/templatetags/student_extras.py:13-16 | the displayed hour is in 1..12: hour 0 shows 12, hours 1-12 show themselves, hours 13-23 show the hour less 12 |
| TimeFormat.FormatTime | attendance/student/templatetags/student_extras.py:8-18 | a time becomes `"H:MM AM"` or `"H:MM PM"` of 7 or 8 characters; any other value is returned unchanged (the professor filter, professor_extras.py:8-18, is identical) |
| TimeFormat.FormatRoundTrip | attendance/student/templatetags/student_extras.py:10-17 | the 12-hour text loses nothing: reading it back gives the original hour and minute |
| TimeFormat.HourRoundTrip | attendance/student/templatetags/student_extras.py:13-16 | the displayed hour and the AM/PM suffix together determine the 24-hour hour |
| TimeFormat.FormatClock | exampleForProfessorpage/src/app/components/ClassCard.tsx:76-82 | the prototype copies the minutes text verbatim between `:` and the suffix |
| TimeFormat.FormatClockIsTwelveHour | exampleForProfessorpage/src/app/components/ScheduleManager.tsx:79-85 | the prototype maps 0 to 12 AM, 12 to 12 PM and 13-23 to the hour less 12 PM, the same hour mapping as the template filter |
| TimeFormat.ClockAgreesWithTemplate | exampleForProfessorpage/src/app/components/ClassCard.tsx:76-82 | for a zero-padded `"HH:MM"` the prototype and the template filter print the same text |
| Forms.CleanSchedule | attendance/professor/forms.py:55-64 | rejects iff both times are present and end <= start (so equal times are rejected); a missing time skips the check; valid data is returned unchanged |
| Forms.ValidateSchedule | attendance/professor/forms.py:38-64 | the form is valid iff day, start and end are present and start < end, and then yields exactly that schedule |
| Forms.Optional | attendance/professor/forms.py:33-34 | a nullable optional `CharField` (section, room) is absent iff its stripped text is empty, otherwise it is the stripped text |
| Forms.CleanClass | attendance/professor/forms.py:30-35 | the class form is valid iff the stripped subject is non-empty and every field fits its model length; only a blank subject gives SubjectRequired; section and room clean to absent when blank, while the description, a `TextField`, is always its stripped text, `''` when blank |
| Forms.OptionalFieldsMayBeBlank | attendance/professor/forms.py:33-35 | blank section, room and description never invalidate the form: section and room become absent and the description `''` |
| Forms.CleanJoinCode | attendance/student/forms.py:6-23 | the code is accepted iff its stripped length is 6, and then it is the upper-cased stripped text: length 6, no lowercase letter |
| Forms.UpperKeepsTrimmed | attendance/student/forms.py:20-22 | upper-casing a stripped code leaves nothing to strip, so the second length check never fails |
| Models.Draw | professor/models.py:10-12 | six picks give a code of six characters from A-Z and 0-9 |
| Models.FirstFreeDraw | professor/models.py:11-14 | the retry loop's code, when there is one, is a valid class code not already taken; there is none iff every draw of the stream is taken |
| Models.GenerateClassCode | professor/models.py:8-14 | the loop returns the first free draw of the stream: a valid code not among the existing codes |
| Models.Save | professor/models.py:28-31 | a row that has a code keeps it unchanged; a row without one gets the first free draw |
| Models.Title | professor/models.py:37-40 | the text is the subject followed by `" - Section X"` when a section is set, and just the subject otherwise |
| Database.SchedulesOfMembers | professor/views.py:140-143 | a schedule is among a class's schedules iff the table holds that row for that class |
| Database.ConflictsOfClass | professor/views.py:140-156 | checking a candidate against a class's schedules is checking it against that class's same-day rows only |
| Database.StudentsOfMembers | professor/views.py:384 | a user is among the class's enrolled students iff the enrollment row exists |
| Database.SessionOf | professor/views.py:231-234 | the lookup finds the first record of (class, Manila date, label), or none iff no record has that key |
| Database.KeyedUnambiguous | professor/views.py:231-234 | with at most one record per session, no lookup matches two records |
| Database.SessionId | professor/views.py:231-238 | the record id is the existing one, or the next free id exactly when none exists |
| Database.LedgerAnswer | professor/views.py:231-238 | `get_or_create` raises iff two records match, creates (at the next id) iff none matches, and otherwise returns the only matching record |
| Database.AfterGetOrCreate | professor/views.py:231-238 | `get_or_create` leaves the records unchanged when the lookup finds a record, and otherwise appends exactly one record of that class and label, dated by the default, carrying the default payload and not canceled |
| Database.SessionAfterGetOrCreate | professor/views.py:231-238 | when the stored date falls on the looked-up day, the session is found afterwards at the id returned, and an unambiguous lookup stays unambiguous |
| Database.GetOrCreateIdempotent | professor/views.py:374-381 | when the first call stored a date on the looked-up day, a second `get_or_create` on that day and label changes nothing and returns the same id |
| Database.MisdatedGetOrCreateRepeats | attendance/professor/views.py:203-210 | when the stored date is not the looked-up day, a second call misses the first record, adds another, and the two then share a session key |
| Database.GetOrCreateKeepsKeyed | professor/views.py:231-238 | when it stores a date on the looked-up day, `get_or_create` keeps at most one record per (class, date, label) |
| Database.InsertKeepsOrder | professor/models.py:69 | inserting a schedule keeps the table in `['day', 'start_time']` order and adds exactly that row |
| Database.SchedulesValidAreUnique | professor/models.py:70 | valid schedule rows satisfy the (class, day, start, end) unique_together constraint |
| Database.InsertKeepsConflictFree | professor/views.py:148-158 | saving a schedule that overlaps no same-day schedule of its class keeps every class conflict-free |
| Database.InsertKeepsSchedulesValid | professor/views.py:158 | saving such a schedule keeps the schedules table valid |
| Database.Db.FindRecord | professor/views.py:231-234 | the lookup returns the first record of (class, date, label) and whether a second one exists |
| Database.Db.GetOrCreateRecord | professor/views.py:231-238 | the answer is `LedgerAnswer` (found, created or raised); the records become `AfterGetOrCreate`; one record per session is kept when the stored date falls on the looked-up day |
| Database.Db.SetPayload | attendance/professor/views.py:213-215 | overwrites that record's `qr_code_data` and nothing else |
| Database.Db.HasEntry | professor/views.py:403-406 | true iff an entry exists for (record, student) |
| Database.Db.CreateEntry | professor/views.py:416-419 | appends exactly one entry for (record, student) and keeps the uniqueness invariant |
| Database.Db.InsertSchedule | professor/views.py:158 | stores the schedule at its place in query order |
| Database.Db.FindClassByCode | student/views.py:116 | finds a class with that code, or reports that no class has it |
| Database.Db.FindEnrollment | student/views.py:119 | finds the (student, class) enrollment, or reports that there is none |
| Database.Db.Enroll | student/views.py:124-127 | puts the new enrollment first (newest first) and keeps at most one per (student, class) |
| Database.Db.Unenroll | student/views.py:186-192 | deletes exactly the k-th enrollment and keeps the others in order |
| Database.Db.InsertClass | professor/views.py:100-102 | appends the class row with its fresh, unique code |
| Database.Db.UpdateClass | professor/views.py:117-119 | replaces that class row, code kept, and changes nothing else |
| ProfessorViews.CreateClass | professor/views.py:94-104 | an invalid form stores nothing and reports the form's error; otherwise the caller's class is appended with the first free generated code |
| ProfessorViews.EditClass | professor/views.py:111-121 | refuses a class the caller does not own; a valid form rewrites the four fields and keeps the owner and the code; otherwise nothing changes |
| ProfessorViews.AddedOverlapsNothing | professor/views.py:140-158 | an added schedule overlaps no same-day schedule of the same class |
| ProfessorViews.AddIgnoresOtherDays | professor/views.py:140-143 | schedules of other classes or other days never change the answer of `add_schedule` |
| ProfessorViews.AddSchedule | professor/views.py:128-160 | the answer is `AddAnswer` (foreign class, invalid form, conflict, or added); only an added schedule is stored, in query order (attendance/professor/views.py:96-128 is identical) |
| ProfessorViews.ActiveSlot | professor/views.py:15-27 | the active schedule is a schedule row of that class on today's weekday containing now, and is absent iff the resolver finds none |
| ProfessorViews.ActivationIdempotent | professor/views.py:229-238 | activating twice in the same slot on the same Manila date reuses the first record and adds none |
| ProfessorViews.KeyedActivationNeverFails | professor/views.py:231-238 | on a table with one record per session, activation never meets `MultipleObjectsReturned` |
| ProfessorViews.ActivateQrScanning | professor/views.py:196-241 | the answer is not-owner, no schedules, not scheduled now, a server error on an ambiguous lookup, or activated; only an activation runs `get_or_create` on the session label, with no payload; one record per session is kept (`scan_student_qr`, professor/views.py:305-329, runs the same steps) |
| ProfessorViews.ScannedName | professor/views.py:354 | a missing or null field gives the empty name; a given text gives a piece of it with no whitespace at either end |
| ProfessorViews.ScannedNameStripsSurroundings | professor/views.py:354 | for a given text, the name is that text with exactly its leading and trailing whitespace removed |
| ProfessorViews.FirstMatchIsFirst | professor/views.py:386-393 | the match found is the first enrolled student whose stripped display name lower-cases to the lower-cased scanned name |
| ProfessorViews.FindStudentByName | professor/views.py:386-393 | the loop finds no student iff none matches, and otherwise the first match |
| ProfessorViews.FirstMatchUnique | professor/views.py:388-393 | any index with that first-match property is the specification's first match |
| ProfessorViews.MatchAnswer | professor/views.py:395-426 | not found iff no student matches; already marked iff the match has an entry in the record; otherwise recorded |
| ProfessorViews.BlankNameRejected | professor/views.py:354-357 | a missing, null or all-whitespace name is rejected before anything else |
| ProfessorViews.MatchedIsFirst | professor/views.py:388-393 | the student who is recorded or already marked is the first match |
| ProfessorViews.MarkedIsFirstEnrolledMatch | professor/views.py:384-419 | a recorded student is enrolled in the class, matches the name, and no earlier enrollment matches |
| ProfessorViews.MatchAfterEntry | professor/views.py:403-413 | once an entry has been recorded, the same scan answers already marked |
| ProfessorViews.RescanIsAlreadyMarked | professor/views.py:371-413 | scanning the same student again in the same session answers already marked and adds no entry |
| ProfessorViews.RecordScan | professor/views.py:371-426 | runs `get_or_create` on the session (a 500 on an ambiguous lookup), then inserts exactly one entry iff the answer is recorded; one record per session is kept |
| ProfessorViews.ProcessQrScan | professor/views.py:341-429 | the answer is `ScanAnswer`; the records change only past the schedule check and the entries only on a recorded scan; one record per session is kept |
| ProfessorViews.IdOf | professor/views.py:267 | a class id parses only from a non-empty digit string |
| ProfessorViews.IdOfDecimal | attendance/professor/views.py:193 | the id written into the payload parses back to the class id |
| ProfessorViews.LatestSession | professor/views.py:270-273 | finds the latest-dated record of the class whose payload contains the timestamp, or none when there is none |
| ProfessorViews.FindLatestSession | professor/views.py:270-273 | the loop computes `LatestSession` |
| ProfessorViews.ExpiryBoundary | professor/views.py:263-264 | a token is expired iff it is more than 7200 s old, so a token exactly 7200 s old, or dated in the future, passes |
| ProfessorViews.VerifyNeedsPayload | professor/views.py:270-276 | with no stored payload, verification can never record or find attendance |
| ProfessorViews.ReverifyRejected | professor/views.py:279-289 | after a successful verification the same token answers already marked |
| ProfessorViews.VerifyQrCode | professor/views.py:244-296 | the answer is `VerifyAnswer` (invalid data, expired, no such class, not found, already marked, attended); exactly one entry is added iff attended (attendance/professor/views.py:227-279 is identical) |
| AttendanceProfessorViews.BuildPayload | attendance/professor/views.py:192-197 | the payload has the four keys, and its class id parses back to the class |
| AttendanceProfessorViews.Dumps | attendance/professor/views.py:209 | the stored JSON text contains the timestamp, so the verifier's `contains` finds it |
| AttendanceProfessorViews.PayloadRoundTrip | attendance/professor/views.py:233-236 | reading the dumped payload back gives the four fields |
| AttendanceProfessorViews.ActivationOverwritesPayload | attendance/professor/views.py:203-215 | after activation the session's record, of that class and label, carries the new payload whether it was created or already existed, and no other record changes; the lookup finds it again when it was found or was created on the looked-up day |
| AttendanceProfessorViews.SessionOfUpdate | attendance/professor/views.py:213-215 | overwriting the payload neither moves the session nor changes whether its lookup is ambiguous |
| AttendanceProfessorViews.ReactivationReusesRecord | attendance/professor/views.py:203-215 | reactivating in the same slot on the same UTC date reuses the record and replaces its payload, when the first activation found its record or created it before 16:00 UTC |
| AttendanceProfessorViews.LateReactivationDuplicates | attendance/professor/views.py:203-210 | from 16:00 UTC a second activation in the same slot misses the record the first created, creates another, and the two then make the next Manila day's lookup ambiguous |
| AttendanceProfessorViews.LateReactivationExample | attendance/professor/views.py:176-210 | a Monday 17:00-18:00 class activated at 17:30 and 17:40 UTC meets every premise of `LateReactivationDuplicates` |
| AttendanceProfessorViews.ManilaLookupReusesRecord | professor/views.py:213-238 | looking up the Manila date the record is stored under, any second activation on the same Manila day finds the first record and only replaces its payload |
| AttendanceProfessorViews.ActivateQrScanning | attendance/professor/views.py:164-224 | the answer is `ActivateAnswer` (a server error on an ambiguous lookup); an activation looks up the UTC date, stores the Manila reading of now, and puts the payload on the session's record and nothing else |
| AttendanceProfessorViews.ActivationThenVerifyFindsSession | attendance/professor/views.py:242-259 | a token issued by an activation, used within two hours, finds that very session |
| AttendanceProfessorViews.ScanName | attendance/professor/views.py:327 | a null name has no value (stripping it raises); any other field gives the stripped text |
| AttendanceProfessorViews.MarkStudent | attendance/professor/views.py:362-387 | runs `get_or_create` on the UTC date (a 500 on an ambiguous lookup), then adds exactly one entry unless the student is already marked |
| AttendanceProfessorViews.ScanOwnedClass | attendance/professor/views.py:336-387 | matches the student, then checks the schedule, then records under the UTC date (a 500 on an ambiguous lookup); the records grow by `get_or_create` with the Manila reading of now, and the entries only on a recorded scan |
| AttendanceProfessorViews.ProcessQrScan | attendance/professor/views.py:321-398 | the answer is this copy's `ScanAnswer`; records change only once the session is ledgered, by `get_or_create` on the UTC date with the Manila reading of now, and entries only on a recorded scan |
| AttendanceProfessorViews.CopiesAgreeInWindow | attendance/professor/views.py:336-360 | while a schedule is active, both copies answer a given name the same way, except that on an ambiguous lookup professor/views.py fails before it matches the name |
| AttendanceProfessorViews.LateRescanRecordsAgain | attendance/professor/views.py:362-387 | from 16:00 UTC, after a scan that created the session's record, scanning the same student again in the same window records them a second time, in a new record |
| AttendanceProfessorViews.UnknownNameOutsideWindow | attendance/professor/views.py:346-360 | outside class hours an unknown name gets not-found here, but no-active-schedule in the other copy |
| AttendanceProfessorViews.NullNameDiffers | attendance/professor/views.py:327 | a null name raises here (500) but is a missing name in the other copy |
| StudentViews.ClassWithCode | student/views.py:116 | finds a class with the code, or none iff no class has it |
| StudentViews.ClassWithCodeUnique | professor/models.py:24 | codes are unique, so the class with a code is the only one |
| StudentViews.JoinClass | student/views.py:108-135 | the answer is `JoinAnswer` (invalid form, unknown code, already enrolled, joined); only a join adds exactly one enrollment (attendance/student/views.py:50-77 is identical) |
| StudentViews.JoinTwiceAlreadyEnrolled | student/views.py:119-121 | joining again with the same code answers already enrolled and creates no second enrollment |
| StudentViews.JoinAcceptsLowercaseCode | attendance/student/forms.py:20 | a lower-case code with surrounding spaces joins the class that has the code |
| StudentViews.JoinedStudentIsListed | student/views.py:124-127 | after a join the student is among the class's enrolled students |
| StudentViews.LeaveClass | student/views.py:183-194 | not enrolled iff there is no enrollment, and then the table is unchanged; otherwise the caller's enrollment for that class is spliced out and the others keep their order (attendance/student/views.py:125-136 is identical) |
| StudentViews.UnenrollRemovesOnlyThat | professor/models.py:147 | with unique enrollments, deleting one removes exactly that (student, class) pair |
| StudentViews.MyQrCode | student/views.py:197-207 | the QR text is the full name, or the username when the full name is empty (attendance/student/views.py:139-149 is identical) |
| StudentViews.OwnQrFindsNamesake | student/views.py:200-204 | scanning an enrolled student's own QR text matches some student with that name |
| StudentViews.GroupIsFilter | student/views.py:49-60 | a key is in the dict iff some pair has it, and its list is that key's values in order |
| StudentViews.ValuesForMembers | student/views.py:49-60 | a value is listed under a key iff the pair occurs |
| StudentViews.Append | student/views.py:52-54 | creates the key's list when missing and appends the value at its end |
| StudentViews.ExtraEntry | student/views.py:95 | an extra class without a reason is exported with reason `''` |
| StudentViews.SchedulesByDay | student/views.py:49-60 | the loop builds exactly the day-to-schedules grouping in query order |
| StudentViews.CanceledByDate | student/views.py:69-78 | the loop builds exactly the date-to-canceled-sessions grouping |
| StudentViews.ExtrasByDate | student/views.py:84-96 | the loop builds exactly the date-to-extra-classes grouping |
| StudentViews.EnrolledClassIds | student/views.py:19-20 | the ids are exactly those of the classes the student is enrolled in |
| StudentViews.Dashboard | student/views.py:45-96 | the three calendar dicts are the groupings of the student's enrolled classes |
| StudentViews.ScheduleListed | student/views.py:46-60 | every schedule of an enrolled class is listed under its day |
| StudentViews.ScheduleOnlyEnrolled | student/views.py:46-60 | every listed schedule comes from a schedule row of an enrolled class |
| StudentViews.CanceledEntriesShape | student/views.py:63-78 | a listed entry comes from, and only from, a canceled record of an enrolled class, keyed by its UTC date |
| Prototype.CountDistinctStudents | exampleForProfessorpage/src/app/components/ClassDetailView.tsx:151-158 | `uniqueStudents`, and `totalStudents` in ClassCard.tsx:67-74, is the number of distinct student ids across all records |
| Prototype.SeenIdsStep | exampleForProfessorpage/src/app/components/ClassDetailView.tsx:154-156 | each record adds exactly its students' ids to the set seen so far |
| Prototype.SameStudentCountedOnce | exampleForProfessorpage/src/app/components/ClassDetailView.tsx:154-156 | adding a scan to any record adds its id to the seen set: the count grows by one for a new student and stays put for one already listed anywhere |
| ScheduleManager.AddOutcomes | exampleForProfessorpage/src/app/components/ScheduleManager.tsx:30-72 | an empty field gives the fill-in alert; an add succeeds iff the range is valid and conflict-free; a success appends the schedule, keeps the rest in order and resets the editor |
| ScheduleManager.AddKeepsConflictFree | exampleForProfessorpage/src/app/components/ScheduleManager.tsx:48-69 | an accepted add keeps a valid, conflict-free list valid and conflict-free |
| ScheduleManager.AddOnFreeDay | exampleForProfessorpage/src/app/components/ScheduleManager.tsx:49 | with no schedule on the draft's day, any valid range is added |
| ScheduleManager.BackToBackAccepted | exampleForProfessorpage/src/app/components/ScheduleManager.tsx:57-61 | a range starting where a same-day schedule ends is added |
| ScheduleManager.RemoveAtIsSplice | exampleForProfessorpage/src/app/components/ScheduleManager.tsx:74-77 | removing index i drops exactly that element and keeps the rest in order; an index out of range changes nothing |
| ScheduleManager.HandleRemoveSchedule | exampleForProfessorpage/src/app/components/ScheduleManager.tsx:74-77 | an in-range removal shortens the list by one; any other index leaves it as it was |
| ScheduleManager.RemoveKeepsConflictFree | exampleForProfessorpage/src/app/components/ScheduleManager.tsx:74-77 | removing a schedule never creates a conflict |
| ClassDetailView.ActiveAgreesAtMinuteStart | exampleForProfessorpage/src/app/components/ClassDetailView.tsx:69-85 | at the start of a minute the prototype is active iff the server's resolver finds a schedule |
| ClassDetailView.EndMinuteDiffers | exampleForProfessorpage/src/app/components/ClassDetailView.tsx:74-84 | past the first instant of the end minute the prototype is still active while the server is not |
| ClassDetailView.ActivationGuards | exampleForProfessorpage/src/app/components/ClassDetailView.tsx:87-101 | scanning turns on iff some schedule is in session; the configure-first alert shows iff there are no schedules |
| ClassDetailView.PostOutcomes | exampleForProfessorpage/src/app/components/ClassDetailView.tsx:103-124 | posting fails iff the title or content is all whitespace; a post puts the new announcement first, keeps the others in order, changes nothing else in the class, and clears both inputs |
| ClassCard.FirstLaterToday | exampleForProfessorpage/src/app/components/ClassCard.tsx:38-47 | finds the first schedule, in list order, that is today and starts after now, or none iff there is none |
| ClassCard.FilterThenSearch | exampleForProfessorpage/src/app/components/ClassCard.tsx:38-47 | filtering today's schedules and then searching equals searching the whole list for one today and later |
| ClassCard.FirstOnDay | exampleForProfessorpage/src/app/components/ClassCard.tsx:56 | a found schedule is in the list and on that day |
| ClassCard.FirstOnDayIsFind | exampleForProfessorpage/src/app/components/ClassCard.tsx:56 | `find` answers none iff no schedule is on that day; otherwise the first schedule on that day in list order |
| ClassCard.WeekAhead | exampleForProfessorpage/src/app/components/ClassCard.tsx:50-55 | the scanned days are seven, the k-th being today shifted k+1 places in the Sunday-first week |
| ClassCard.GetNextSchedule | exampleForProfessorpage/src/app/components/ClassCard.tsx:28-64 | the loop-based search returns `NextSchedule` |
| ClassCard.ScanWeek | exampleForProfessorpage/src/app/components/ClassCard.tsx:53-61 | the day loop returns the scan over the week ahead |
| ClassCard.DayReached | exampleForProfessorpage/src/app/components/ClassCard.tsx:53-59 | every weekday is reached at some offset in 1..7 |
| ClassCard.OffsetsAroundTheWeek | exampleForProfessorpage/src/app/components/ClassCard.tsx:53-59 | offset i reaches today iff i = 7 |
| ClassCard.ScanReaches | exampleForProfessorpage/src/app/components/ClassCard.tsx:53-61 | a day in the scan that has a schedule makes the scan succeed |
| ClassCard.ScanIsNearest | exampleForProfessorpage/src/app/components/ClassCard.tsx:53-61 | the scan returns the first schedule of the first day that has one |
| ClassCard.NeverFallsBack | exampleForProfessorpage/src/app/components/ClassCard.tsx:63 | a class with schedules always gets one from the week scan, so the final fallback is unreachable |
| ClassCard.NextAbsentOnlyWithoutSchedules | exampleForProfessorpage/src/app/components/ClassCard.tsx:29-31 | there is no next schedule iff the class has no schedules |
| ClassCard.NextTodayMeaning | exampleForProfessorpage/src/app/components/ClassCard.tsx:38-47 | the result is flagged today iff some schedule today starts after now, and then it is the first such one |
| ClassCard.NextOtherDayMeaning | exampleForProfessorpage/src/app/components/ClassCard.tsx:50-61 | otherwise the result is the first schedule of the nearest following day that has one, flagged not today |
| ClassCard.WrapsToToday | exampleForProfessorpage/src/app/components/ClassCard.tsx:54-59 | with only today's schedules, all already started, the card shows the first of them, flagged not today |
| App.CreateAppends | exampleForProfessorpage/src/app/App.tsx:143-145 | creating a class appends it: the old list is a prefix, the length grows by one, the selection is unchanged |
| App.UpdateReplacesById | exampleForProfessorpage/src/app/App.tsx:147-150 | an update keeps the ids and the length; classes with the id become the update, others stay; the update is selected |
| App.UpdateIdempotent | exampleForProfessorpage/src/app/App.tsx:148 | updating twice with the same class is updating once |
| App.UpdateUnknownIdOnlySelects | exampleForProfessorpage/src/app/App.tsx:147-150 | an update with an unknown id leaves the list unchanged but still selects the class |
| App.UpdateUndone | exampleForProfessorpage/src/app/App.tsx:148 | with unique ids, updating back with the replaced class restores the list |
| App.SelectionHandlers | exampleForProfessorpage/src/app/App.tsx:152-158 | clicking selects the class, going back clears the selection, and neither touches the list |

## Findings

| source | as written | input that shows it | evidently intended | confidence | as-written member | corrected member |
|---|---|---|---|---|---|---|
| attendance/professor/views.py:203-210 | `activate_qr_scanning` looks up `date__date=now.date()` with `now = timezone.now()`, the UTC date, while `__date` reads the stored `now` in Manila time | a Monday 17:00-18:00 class activated at 17:30 and again at 17:40 UTC on 1970-01-05: the second activation creates a second record, and the next lookup of that Manila day raises `MultipleObjectsReturned` | every activation on the same day and slot reuses one record | not executed; high | AttendanceProfessorViews.LateReactivationDuplicates | AttendanceProfessorViews.ManilaLookupReusesRecord |
| attendance/professor/views.py:364-371 | `process_qr_scan` uses the same UTC lookup, so from 16:00 UTC the record a scan creates is not found by the next scan | a student scanned twice after 16:00 UTC in the same window, the first scan having created the record | the second scan answers "already marked" | not executed; high | AttendanceProfessorViews.LateRescanRecordsAgain | ProfessorViews.RescanIsAlreadyMarked |

## Left out

- Authentication, `@login_required`, role checks, templates, redirects, `messages`, HTTP status codes and JSX markup. Answers are datatypes naming the outcome.
- Non-POST paths of the views, and the GET branches that only render a form.
- Unicode case: `lower()` and `upper()` change A-Z only. Strings are sequences of Unicode characters; whitespace follows each language's full definition.
- JSON parsing of request bodies, `json.loads` beyond the `json.dumps` layout of the payload, and JSON escaping. The view methods take the body fields already read.
- `datetime.fromisoformat` and `isoformat()`. The clock reading is a parameter, the conversion to Manila time is a fixed eight-hour shift, and the token age is an input in microseconds.
- `secrets.choice`: the random source is a finite stream of picks. `generate_class_code` answers `None` when the stream runs out, because `while True` has no termination bound.
- Concurrency: the race between two `get_or_create` calls is not modelled; requests run one at a time.
- `delete_schedule`, the Django announcement view and the class-detail and dashboard statistics views, which only read and render.
- `attendance_count`, `attendance_rate` and `time_duration`, which are floating-point or count-only.
- CreateClassModal.tsx, the mock data in App.tsx, QR image generation, and `handleUpdateSchedules`, which only copies a list into the class.
- The `attendance/student/views.py` dashboard and `class_detail`.
- Extra-session conflict checks and cancellation toggling, which no view implements.
- ProfessorViews.IdOf: accepts only non-empty digit strings. Python's `get_object_or_404(id=...)` also accepts other spellings of an integer, such as surrounding spaces or a sign.
- StudentViews.Dashboard: the dict keys are days and date numbers rather than formatted strings; the `-date` order of canceled records and the order of extra classes are taken as the table order; the schedule and extra-class items leave out the row's `'id'` key (student/views.py:55, 90).
- Schedule times are held at minute precision. A `TimeField` also keeps seconds, and Django accepts a posted `HH:MM:SS` although the `type: 'time'` inputs post `HH:MM`. With seconds, the form compares full times (attendance/professor/forms.py:60-62) while the conflict test and the session label keep only hours and minutes (professor/views.py:144-149, 229), so 10:00:30-10:00:45 would pass the form, occupy no minute in the conflict test and be labelled "10:00 - 10:00".
- Scheduling.LabelInjective: holds for minute-precision times only; two rows differing only in seconds share a label.
- Scheduling.EndBoundaryExact: assumes an end time with zero seconds, as every modelled schedule time has.
- ProfessorViews.Carries: `qr_code_data__contains` is an exact, case-sensitive substring test, as on a PostgreSQL `DATABASE_URL`; on the SQLite fallback (attendance/settings.py:99-104) Django's `LIKE` ignores ASCII case, which is not modelled.
- Django's `ProhibitNullCharactersValidator`: form text containing U+0000 is rejected by every `CharField`, while `Forms.CleanClass` and `Forms.CleanJoinCode` accept it.
- Prototype times and days are held as parsed values. `split(':').map(Number)`, `parseInt` and `NaN` on malformed text are not modelled, and `Date.now()` and `toISOString()` are inputs.
- Models.NewRecord: a helper building the row `create` stores; what a created record holds is stated by `Database.AfterGetOrCreate`.
- Models.DisplayName: a helper (`get_full_name() or username`) with no property of its own.
