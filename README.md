# A verified model of a school attendance app

The app is a browser-only attendance system for an Indonesian school. A student
checks in by scanning an ID card or typing their ID, then takes a selfie and shares
a location. A vision model reads the card and judges the selfie. The record is
saved in the browser's local storage, and a parent may get a Telegram message. An
administrator dashboard reviews pending records, counts them, exports CSV files and
a monthly recap, and imports student and teacher rosters from CSV.

This Dafny project models the logic of that app and proves what it promises:

- `storage.dfy` (module `Storage`): the local-storage service as a class
  `LocalStorage`. Each stored list is a `seq` field. The learning-module lists are
  a `map` from their key. Every mutator states its whole new state. Most also
  state that the roster keys (student id, teacher NIP) stay distinct.
- `checkin.dfy` (module `CheckIn`): the check-in component as a class
  `CheckInSession`. Its fields are the component's state variables. `Valid()` is
  the invariant of the flow, and every handler keeps it. The lateness rule, the
  saved record and the parent notification are functions proved about separately.
- `dashboard.dfy` (module `Dashboard`): the non-rendering logic of the dashboard.
  This covers lateness in the export and the log table, the geofence badge, the
  counters, review, teacher selection, the class filter, the monthly recap loop and
  the two CSV import loops.
- `notification.dfy` (module `Notification`): `formatMessage` and what it does to
  the default template.
- `gemini.dfy` (module `Gemini`): the data-URL prefix strip and the fallbacks of
  the two AI calls. The model itself is a function parameter.
- `jsstring.dfy` and `lists.dfy`: the JavaScript built-ins the core relies on.
  They cover `String.prototype.replace` with a string pattern (first occurrence
  only), `split` on one character, `trim`, `Number` on a digit string,
  `findIndex` and `filter`, and the first-new deduplication of the bulk imports.
- `types.dfy` and `wrappers.dfy`: the records of `types.ts`, and `Option`/`Result`.

The field `class` of a student is called `className`, because `class` is a Dafny
keyword. Timestamps are integers of milliseconds since the epoch.

Some behaviour depends on the clock, the locale, the calendar, the geolocation API
or a fresh uuid. Each of these is a parameter:

- `dayStart` is the start of the local day of a timestamp.
- `dateOf` gives the local date string of a timestamp.
- A recap month is a sequence of `CalendarDay`.
- The geodesic distance is a `Distance` function.
- `newId` stands for `uuidv4`.

Some facts worth knowing before reading the table:

- Lateness: the check-in, the CSV export and the log table each compute it with
  their own copy of the rule. `Dashboard.LatenessCopiesAgree` proves the three
  copies agree.
- The card-reading error: extraction catches all of its own failures. So the
  scan handler's `catch` branch, with its "AI Service error" message, can never
  run. An outage shows "Could not read ID card" instead
  (`CheckIn.CheckInSession.HandleIDScanCapture`,
  `CheckIn.ExtractionOutageLooksUnreadable`).
- Selfie verification fails open. When the model is unreachable every selfie is
  accepted (`Gemini.UnavailableServiceAcceptsAll`,
  `CheckIn.VerificationOutageAccepted`).
- `alpa` (days absent) is working days minus present days. Present days include
  weekends, so `alpa` can be negative (`Dashboard.AlpaCanBeNegative`). The source
  marks this line as simplified logic.
- `saveClassAttendance` matches on the id or on (date, class, subject). It keeps
  sessions unique only when the new session's id is fresh, which its only caller
  ensures (`Storage.UpsertKeepsSessionKeysUnique`). A reused id can create a
  duplicate (`Storage.UpsertWithReusedIdDuplicatesKey`).
- The default notification template is written as the concatenation of its
  pieces. The text is unchanged, and the substitution proofs can name each piece.

## Model

| member | source | states |
|---|---|---|
| Storage.LocalStorage.constructor | services/storage.ts:34-48 | An empty store: no records, students, teachers or list entries, and no saved settings. |
| Storage.LocalStorage.SaveAttendance | services/storage.ts:19-23 | The new record is put first and the old records follow, in order. |
| Storage.UpdatedRecords | services/storage.ts:25-32 | The length is kept. Only the first record with the id is patched, as `{...r, ...u}`. No other record changes, and an unknown id changes nothing. |
| Storage.LocalStorage.UpdateAttendanceRecord | services/storage.ts:25-32 | The records become `UpdatedRecords` of the old records. |
| Storage.UpdateIdempotent | services/storage.ts:25-32 | Applying an update twice equals applying it once, as long as the update keeps the id. |
| Storage.UpdateMovingIdNotIdempotent | services/storage.ts:25-32 | An update that changes the id is not idempotent: the second call patches the next record with the old id. |
| Storage.Patched | services/storage.ts:29 | `{...r, ...u}`: an empty patch changes nothing, a patch without an id keeps the id, and a status in the patch becomes the status. |
| Storage.StatusPatchTouchesOnlyStatus | services/storage.ts:29 | A status patch changes the status and no other field. |
| Storage.LocalStorage.ClearRecords | services/storage.ts:39-41 | No records remain. |
| Storage.LocalStorage.SaveStudent | services/storage.ts:50-57 | Fails exactly when the id is already stored, and then nothing changes. Otherwise the student is appended. Distinct ids stay distinct. |
| Storage.LocalStorage.UpdateStudent | services/storage.ts:59-74 | An unknown original id is reported as not found. A changed id that is already stored is reported as existing. The update succeeds exactly when the original id is stored and the new id is unchanged or free, and then only the first student with the original id is replaced. Every error leaves the list unchanged, and distinct ids stay distinct. |
| Storage.WithoutStudent | services/storage.ts:78 | Each remaining student is an old student with another id, and every old student with another id remains. |
| Storage.LocalStorage.DeleteStudent | services/storage.ts:76-80 | Exactly the students with other ids remain, in order. Distinct ids stay distinct. |
| Storage.LocalStorage.BulkImportStudents | services/storage.ts:82-98 | Appends, in batch order, each student whose id is neither stored nor taken by an earlier student of the batch. Returns how many were added. Nothing is written when none is new. Distinct ids stay distinct. |
| Lists.FirstNew | services/storage.ts:84-92 | The kept elements have distinct keys, none already seen, and all come from the batch. |
| Lists.FirstNewCovers | services/storage.ts:84-92 | Every key of the batch is either already seen or among the kept elements. |
| Lists.ImportKeepsDistinct | services/storage.ts:94-95 | Appending the first-new elements to a list with distinct keys keeps the keys distinct. |
| Storage.LocalStorage.SaveTeacher | services/storage.ts:107-114 | Fails exactly when the NIP is already stored, and then nothing changes. Otherwise the teacher is appended. Distinct NIPs stay distinct. |
| Storage.LocalStorage.UpdateTeacher | services/storage.ts:116-131 | An unknown id is reported as not found. A NIP is reported as existing only when it differs from the teacher's own NIP and is already stored. The update succeeds exactly when the id is stored and the NIP is unchanged or free, and then the first teacher with the id is replaced in place. Errors change nothing, and distinct NIPs stay distinct. |
| Storage.LocalStorage.DeleteTeacher | services/storage.ts:133-137 | The teachers become `WithoutTeachers` of the old list and `[id]`. Distinct NIPs stay distinct. |
| Storage.LocalStorage.BulkDeleteTeachers | services/storage.ts:139-144 | The teachers become `WithoutTeachers` of the old list and `ids`. Distinct NIPs stay distinct. |
| Storage.WithoutTeachers | services/storage.ts:139-144 | Each remaining teacher is an old teacher whose id is not listed. Every old teacher whose id is not listed remains. Distinct NIPs stay distinct. |
| Storage.LocalStorage.BulkImportTeachers | services/storage.ts:146-162 | As for students, keyed by NIP. Returns how many teachers were appended. |
| Storage.LocalStorage.SaveItem | services/storage.ts:171-176 | The item is appended to the list under its key. Every other list is unchanged. |
| Storage.LocalStorage.DeleteItem | services/storage.ts:178-183 | The list under the key loses every item with the id. Every other list is unchanged. |
| Storage.SessionMatches | services/storage.ts:216 | A stored item matches the session when it has the same id, or is a session with the same date, class and subject. |
| Storage.UpsertSession | services/storage.ts:213-223 | With no matching item, the session is appended. Otherwise the first match is replaced by the session under the stored id. |
| Storage.LocalStorage.SaveClassAttendance | services/storage.ts:213-223 | The class-attendance list becomes `UpsertSession` of the old one, and every other list is unchanged. With a fresh id, (date, class, subject) stays unique. |
| Storage.UpsertKeepsSessionKeysUnique | services/storage.ts:216-221 | With an id no stored item has, saving keeps at most one session per (date, class, subject). |
| Storage.UpsertWithReusedIdDuplicatesKey | services/storage.ts:216 | A reused id that matches an earlier session of another class creates two sessions with the same key. |
| Storage.DefaultSettings | services/storage.ts:232-245 | The default settings: the school's name and position, a 200 m radius, start 07:00, end 15:00, empty token and logo, immediate notification and the default template. |
| Storage.LocalStorage.GetSettings | services/storage.ts:227-246 | The saved settings, or the defaults when none were saved. |
| Storage.LocalStorage.SaveSettings | services/storage.ts:248-250 | Later reads of the settings return what was saved. |
| Storage.LocalStorage.SeedDatabase | services/storage.ts:254-330 | Each empty list (records, students, teachers, subjects) gets its demonstration data, and each non-empty list is left alone. Seeding the subjects also writes the schedule. Afterwards all four lists are non-empty. |
| Storage.LocalStorage.SeedRecordsIfEmpty | services/storage.ts:256-291 | Empty records get the two demonstration records, stamped relative to `now` at the school's position. Otherwise nothing changes. |
| Storage.LocalStorage.SeedRostersIfEmpty | services/storage.ts:294-312 | Each empty roster gets its demonstration entries, and a non-empty roster is kept. |
| Storage.LocalStorage.SeedSubjectsIfEmpty | services/storage.ts:315-329 | With no subjects stored, the subjects and the schedule are written. Otherwise nothing changes. |
| Storage.SeedRecords | services/storage.ts:258-289 | The two demonstration records, one verified and one pending, stamped one and two hours before `now` near the school's position. |
| Storage.SeedStudents | services/storage.ts:295-300 | The four demonstration students; only STU001 has a Telegram chat id. |
| Storage.SeedTeachers | services/storage.ts:306-310 | The three demonstration teachers. |
| Storage.SeedSubjects | services/storage.ts:316-321 | The four demonstration subjects. |
| Storage.SeedSchedule | services/storage.ts:324-327 | The two demonstration schedule entries. |
| Storage.SeedStudentsDistinct | services/storage.ts:295-300 | The seed students have distinct ids. |
| Storage.SeedTeachersDistinct | services/storage.ts:306-310 | The seed teachers have distinct NIPs. |
| CheckIn.ParseStartTime | components/StudentCheckIn.tsx:141 | A start time that parses has at least two `:` fields. |
| CheckIn.ParseStartTimeFields | components/StudentCheckIn.tsx:141 | A start time parses exactly when its first two `:` fields are numbers, and then to those two numbers as hour and minute. |
| CheckIn.ParseRenderedTime | components/StudentCheckIn.tsx:141 | A time rendered as "HH:MM" parses back to the same hour and minute. |
| CheckIn.DefaultStartTimeIsSeven | services/storage.ts:237 | The default start time "07:00" parses to seven o'clock. |
| CheckIn.Cutoff | components/StudentCheckIn.tsx:142-143 | `setHours(h, m, 0, 0)` on the day: the start of the day plus the hours and minutes, out-of-range values rolling over. |
| CheckIn.CutoffWithinDay | components/StudentCheckIn.tsx:142-143 | The cutoff is never before the day starts. An in-range time falls within the day, and an hour of 24 or more falls on a later day. |
| CheckIn.Lateness | components/StudentCheckIn.tsx:140-146 | Late exactly when the time is strictly after the cutoff and the start time parsed. Minutes late is the number of whole minutes past the cutoff, and 0 when on time. |
| CheckIn.OnCutoffIsOnTime | components/StudentCheckIn.tsx:145 | A check-in exactly at the cutoff is on time. |
| CheckIn.OneMillisecondLate | components/StudentCheckIn.tsx:145-146 | One millisecond after the cutoff is late by zero minutes. |
| CheckIn.WholeMinutesLate | components/StudentCheckIn.tsx:146 | `m` minutes and under a minute more past the cutoff is exactly `m` minutes late. |
| CheckIn.LatenessMonotone | components/StudentCheckIn.tsx:145-146 | A later check-in is never less late. |
| CheckIn.RecordStatus | components/StudentCheckIn.tsx:161 | The status is pending exactly when there is no verdict, and rejected exactly when the verdict rejects. |
| CheckIn.SubmittedRecord | components/StudentCheckIn.tsx:154-163 | The saved record carries the record id, the identity, the time, the fix and the selfie. It is pending exactly when there is no verdict, and has a note exactly when there is one. |
| CheckIn.Truthy | components/StudentCheckIn.tsx:170 | A missing or empty string is falsy. |
| CheckIn.NotificationFor | components/StudentCheckIn.tsx:166-179 | A message exists exactly when the student is stored, a bot token is set and that student has a chat id. It then goes to the first such student's chat with the bot token, and its text is the formatted template. |
| CheckIn.DefaultSettingsSendNothing | services/storage.ts:240 | With the default settings (an empty bot token) no message is sent. |
| CheckIn.SeededStudentsNotification | services/storage.ts:296-297 | With a bot token, seeded student STU001 is notified at chat 12345 and STU002 is not notified. |
| CheckIn.CheckInSession.constructor | components/StudentCheckIn.tsx:16-29 | A fresh session: no permissions, step 0, nothing captured. The flow invariant holds. |
| CheckIn.CheckInSession.RequestPermissions | components/StudentCheckIn.tsx:32-61 | Granted exactly when both the camera and location succeed. Otherwise the access error is shown. Nothing else changes. |
| CheckIn.CheckInSession.ChooseScan | components/StudentCheckIn.tsx:274 | From step 0 to the scan screen, with nothing else changed. |
| CheckIn.CheckInSession.HandleIDScanCapture | components/StudentCheckIn.tsx:65-82 | The extraction result always replaces idData. A valid result moves to step 2. An invalid one, or any failed call, shows the unreadable-card error on step 1. The AI-service error is never set. |
| CheckIn.CheckInSession.HandleManualSubmit | components/StudentCheckIn.tsx:84-89 | With an empty field nothing changes. Otherwise the typed identity is stored as valid and the flow goes to the selfie. |
| CheckIn.CheckInSession.HandleConfirmID | components/StudentCheckIn.tsx:91-93 | From step 2 to the selfie, with nothing else changed. |
| CheckIn.CheckInSession.RetakeScan | components/StudentCheckIn.tsx:391 | From step 2 back to the scan screen. |
| CheckIn.CheckInSession.BackToMethod | components/StudentCheckIn.tsx:348-349 | From the scan screen back to step 0. |
| CheckIn.CheckInSession.HandleSelfieCapture | components/StudentCheckIn.tsx:95-104 | Keeps the image and the verdict and moves to step 4. |
| CheckIn.CheckInSession.HandleGetLocation | components/StudentCheckIn.tsx:106-130 | A fix is stored and any earlier error is kept. An unsupported or failed location shows its own error. |
| CheckIn.CheckInSession.HandleSubmit | components/StudentCheckIn.tsx:132-186 | An empty selfie stops the submission and nothing changes. Otherwise exactly one record is saved in front of the others, lateness is computed against the saved start time, the notification of `NotificationFor` is attempted, and the flow reaches step 5. |
| CheckIn.CompleteManualEntry | components/StudentCheckIn.tsx:84-130 | Manual entry, the selfie and a location fix leave the session at step 4, holding the identity, selfie, fix and verdict. |
| CheckIn.ManualEntryToSubmit | components/StudentCheckIn.tsx:32-130 | A fresh session, through the permission screen and manual entry, is ready to submit. |
| CheckIn.ManualCheckInOnTime | components/StudentCheckIn.tsx:132-186 | A run of the whole flow on a fresh store, before seven: one verified record for the typed student, on time. |
| CheckIn.UnreadableCardThenManual | components/StudentCheckIn.tsx:65-89 | An unreadable card stays on step 1 with its error. Backing out to manual entry still saves one record. |
| CheckIn.VerificationOutageAccepted | services/gemini.ts:91-94 | With the AI unreachable, the saved record is verified and carries the fallback note. |
| CheckIn.ExtractionOutageLooksUnreadable | components/StudentCheckIn.tsx:70-78 | A failed extraction call shows the unreadable-card error on step 1. |
| Gemini.StripDataUrlPrefix | services/gemini.ts:16 | The result is a suffix of the input. It differs exactly when the input starts with one of the three image prefixes, and then exactly that prefix is removed. |
| Gemini.StripAfterPrefix | services/gemini.ts:16 | Stripping any of the three prefixes put in front of a payload gives the payload back. |
| Gemini.StripNotIdempotent | services/gemini.ts:16 | Only one prefix is removed, so stripping twice differs from stripping once. |
| Gemini.ExtractDetailsFromIdCard | services/gemini.ts:14-55 | A parsed answer about the stripped payload is passed through unchanged. Any failure, an empty text included, gives the invalid fallback. A valid result always comes from the model. |
| Gemini.ExtractionSeesOnlyPayload | services/gemini.ts:16 | A data URL and its bare payload get the same extraction. |
| Gemini.VerifySelfie | services/gemini.ts:57-95 | A parsed verdict is passed through. Any failure gives the accepting fallback. A rejection always comes from the model. |
| Gemini.UnavailableServiceAcceptsAll | services/gemini.ts:91-94 | With the model unreachable, no selfie is rejected. |
| Notification.FormatMessage | services/notification.ts:2-8 | A template with no placeholder comes back unchanged. |
| Notification.DefaultTemplateFullySubstituted | services/notification.ts:2-8 | For values without `{`, the default template becomes the greeting with the name, school, time and date in place. |
| Notification.SecondOccurrenceStays | services/notification.ts:6 | Only the first occurrence of a placeholder is replaced, and a second one stays in the message. |
| Notification.SubstitutionIsSequential | services/notification.ts:3-7 | The replacements run in sequence: a placeholder inside an earlier value is replaced by a later step. |
| Notification.ReplaceAfterBraceFree | services/notification.ts:4-7 | A placeholder after text without `{` is replaced at that position. |
| Notification.OnlyDateTags | services/notification.ts:4-5 | Brace-free text around date placeholders holds no name or school placeholder, so those steps leave it alone. |
| JsString.IndexOf | services/notification.ts:4-7 | -1 exactly when the pattern does not occur. Otherwise the first position where it occurs. |
| JsString.Replace | services/notification.ts:4-7 | Without an occurrence the string is unchanged. Otherwise the first occurrence, and only that one, is replaced. |
| JsString.ReplaceAfterPrefix | services/notification.ts:4-7 | With no earlier occurrence, replacing the pattern after a prefix replaces it in place. |
| JsString.ReplaceWhole | services/notification.ts:4-7 | A string that is the pattern itself becomes the replacement. |
| JsString.Split | components/Dashboard.tsx:226 | At least one piece, and no piece holds the separator. |
| JsString.JoinSplit | components/Dashboard.tsx:226 | Joining the pieces with the separator gives back the string. |
| JsString.SplitJoin | components/Dashboard.tsx:233 | Splitting joined pieces, none holding the separator, gives back the pieces. |
| JsString.SplitAtSeparator | components/Dashboard.tsx:226 | A first piece without the separator comes off first. |
| JsString.ThreeFields | components/Dashboard.tsx:233 | Three comma-free pieces joined by commas split back into those three pieces. |
| JsString.Trim | components/Dashboard.tsx:231 | The result is the input with leading and trailing white space removed, and starts and ends with a non-space character. |
| JsString.TrimUnchanged | components/Dashboard.tsx:231 | A string with no white space at either end is its own trim. |
| JsString.TrimAllSpace | components/Dashboard.tsx:231-232 | A string of white space alone trims to the empty string, so such a line is skipped. |
| JsString.TrimIdempotent | components/Dashboard.tsx:236-237 | Trimming twice equals trimming once. |
| JsString.TrimKeepsLeadingText | components/Dashboard.tsx:231-236 | A string that starts with a non-space keeps that first character after trimming. |
| JsString.JsNumber | components/StudentCheckIn.tsx:141 | A blank string is 0, and a digit string is its decimal value. A value exists exactly when the trimmed string is all digits. |
| JsString.DecimalOfTwoDigits | components/StudentCheckIn.tsx:141 | Two-digit rendering reads back as the number. |
| Lists.FindIndex | services/storage.ts:27 | -1 exactly when no element matches. Otherwise the first match. |
| Lists.IndexOfKey | services/storage.ts:61 | -1 exactly when the key is absent. Otherwise the first element with that key. |
| Lists.Filter | services/storage.ts:78 | The kept elements all pass and come from the input. Every passing element is kept. |
| Lists.FilterSubMultiset | services/storage.ts:78 | Filtering never duplicates: each element is kept at most as often as it occurs. |
| Lists.FilterAppend | components/Dashboard.tsx:709-711 | Filtering distributes over concatenation. |
| Lists.FilterKeepsDistinct | services/storage.ts:78 | Filtering a list with distinct keys keeps them distinct. |
| Dashboard.ExportLateness | components/Dashboard.tsx:406-412 | The export's own copy of the lateness rule: late strictly after the cutoff, whole minutes late. |
| Dashboard.LogRowIsLate | components/Dashboard.tsx:1636-1640 | The log table's own copy of the late test. |
| Dashboard.ExportRuleAgrees | components/Dashboard.tsx:409-412 | Once the start time is parsed, the export's rule gives the check-in's lateness for every start time. |
| Dashboard.LogCopyAgrees | components/Dashboard.tsx:1636-1640 | The log table's late test equals the check-in's. |
| Dashboard.LatenessCopiesAgree | components/Dashboard.tsx:406-412 | The export's lateness and the log table's late badge equal the check-in's lateness for the same time and start time. |
| Dashboard.IsOutOfRange | components/Dashboard.tsx:1632-1633 | Out of range exactly when the distance to the school is strictly more than the radius. |
| Dashboard.BoundaryIsInRange | components/Dashboard.tsx:1632-1633 | A record exactly at the radius is in range. |
| Dashboard.WiderRadiusKeepsInRange | components/Dashboard.tsx:1633 | Widening the radius never puts an in-range record out of range. |
| Dashboard.StatusPartition | components/Dashboard.tsx:709-711 | Each record falls under exactly one of the three status counts. |
| Dashboard.ComputeStats | components/Dashboard.tsx:707-712 | The total is the number of records, and the three counters add up to it. |
| Dashboard.ReviewActions | components/Dashboard.tsx:1685-1700 | Approve and Reject are offered exactly for pending records, and never set pending. |
| Dashboard.HandleUpdateStatus | components/Dashboard.tsx:392-395 | Only the status of the first record with the id changes. Every other record is unchanged. |
| Dashboard.StatusUpdateIdempotent | components/Dashboard.tsx:392-395 | A second approve or reject of the same record changes nothing more. |
| Dashboard.ReviewedRecordOffersNothing | components/Dashboard.tsx:1685 | After review, the record offers no further buttons. |
| Dashboard.Toggle | components/Dashboard.tsx:326-334 | The id flips membership and every other id keeps its membership. |
| Dashboard.ToggleTwice | components/Dashboard.tsx:326-334 | Toggling twice restores the selection. |
| Dashboard.SelectAll | components/Dashboard.tsx:318-324 | When checked, the selection is exactly the teachers' ids. Otherwise it is empty. |
| Dashboard.DeleteAllSelected | components/Dashboard.tsx:336-342 | Deleting a select-all selection removes every teacher. |
| Dashboard.FilterByClass | components/Dashboard.tsx:701-705 | 'All' keeps every student. A class keeps exactly that class's students. |
| Dashboard.PresentOn | components/Dashboard.tsx:455-459 | Some verified record of the student falls on the date. |
| Dashboard.WorkingDays | components/Dashboard.tsx:450-452 | The number of days that are not weekend days. |
| Dashboard.PresentDays | components/Dashboard.tsx:455-463 | The number of days, weekends included, on which the student is present. |
| Dashboard.MarkOf | components/Dashboard.tsx:461-466 | The cell is v exactly when the student is present, and x exactly when absent on a working day; otherwise it is -. |
| Dashboard.RecapRowOf | components/Dashboard.tsx:443-472 | One mark per day, present and working counts no larger than the month, alpa as working minus present, and percent 0 for a month with no working day. |
| Dashboard.RoundedPercent | components/Dashboard.tsx:470 | The nearest whole percent of present over working days, with halves rounded up. |
| Dashboard.StudentRecap | components/Dashboard.tsx:443-474 | The loop's marks, present count, working-day count, alpa and percent equal those of `RecapRowOf`. |
| Dashboard.ExportRecap | components/Dashboard.tsx:426-474 | One row per student of the filter, in roster order, each equal to `RecapRowOf` for that student. |
| Dashboard.WorkingDaysAtMostDays | components/Dashboard.tsx:452 | No more working days than days. |
| Dashboard.PresentAtMostDays | components/Dashboard.tsx:455-463 | No more present days than days. |
| Dashboard.IgnoredRecordKeepsPresence | components/Dashboard.tsx:455-459 | A pending or rejected record, or a copy of a record already present, changes no present count. |
| Dashboard.AlpaCanBeNegative | components/Dashboard.tsx:469 | A verified weekend visit in a month without working days gives alpa -1. |
| Dashboard.FirstFieldSurvivesTrim | components/Dashboard.tsx:233-236 | A non-empty first field of a trimmed line is still non-empty after trimming. |
| Dashboard.StudentRow | components/Dashboard.tsx:231-242 | A blank line gives nothing, and an imported student has a non-empty id. |
| Dashboard.StudentRowImported | components/Dashboard.tsx:231-234 | A line is imported exactly when, once trimmed, it is not empty, its first field is not empty and its second field exists and is not empty. A missing or empty raw name drops the row. |
| Dashboard.StudentRowTrimmed | components/Dashboard.tsx:233-240 | Every field of an imported student carries no surrounding white space. Class, WhatsApp number and Telegram chat id are each present exactly when the line has that many fields. |
| Dashboard.StudentsFromLines | components/Dashboard.tsx:230-244 | At most one student per line, each with a non-empty id. |
| Dashboard.ImportStudentsCsv | components/Dashboard.tsx:226-244 | The loop's result is `StudentsFromCsv` of the text. |
| Dashboard.StudentsFromLinesAppend | components/Dashboard.tsx:230-244 | The import of two runs of lines is the concatenation of their imports. |
| Dashboard.HeaderNeverImported | components/Dashboard.tsx:229-230 | The first line is skipped, whatever it holds. |
| Dashboard.HeaderOnlyImportsNothing | components/Dashboard.tsx:229-230 | A file of one line imports nothing. |
| Dashboard.BlankLineSkipped | components/Dashboard.tsx:231-232 | A blank or all-space line anywhere changes nothing. |
| Dashboard.BlankNameImported | components/Dashboard.tsx:234-237 | A name of spaces passes the test before trimming and is imported as the empty name. |
| Dashboard.TeacherRow | components/Dashboard.tsx:355-366 | A blank line gives nothing. An imported teacher has a non-empty NIP and the row's fresh id. |
| Dashboard.TeacherRowImported | components/Dashboard.tsx:355-358 | A line is imported exactly when, once trimmed, it is not empty, its NIP field is not empty and its name field exists and is not empty. |
| Dashboard.TeacherRowTrimmed | components/Dashboard.tsx:357-364 | Every field of an imported teacher carries no surrounding white space. Subject and phone are each present exactly when the line has that many fields. |
| Dashboard.TeachersFromLines | components/Dashboard.tsx:354-368 | At most one teacher per line, each with a non-empty NIP. |
| Dashboard.ImportTeachersCsv | components/Dashboard.tsx:350-368 | The loop's result is `TeachersFromCsv` of the text. |
| Dashboard.TeacherHeaderNeverImported | components/Dashboard.tsx:353-354 | The teachers' header line is skipped. |

## Left out

- Local storage, JSON encoding and decoding, and the getters (`getAttendanceRecords`, `getStudents`, `getTeachers`, `getList`). The stored lists are the fields of `LocalStorage`, so a getter is a field read.
- `Storage.LocalStorage.SaveStudent`, `SaveTeacher`, `UpdateStudent`, `UpdateTeacher`: a thrown `Error` is an `Option<StoreError>` result. The error message text is not modelled.
- The one-line wrappers over `getList`/`saveItem`/`deleteItem` for subjects, schedule, materials, assignments, grades and sessions. They are calls with a fixed `ListKey`.
- Grades, learning materials, assignments and the class-attendance form of the dashboard: they are input forms that call the storage functions above.
- The `$` patterns of `String.prototype.replace` (`$&`, `$1` and so on) in a replacement value: the model copies the value literally.
- `Number` on syntaxes other than decimal digits and white space (signs, hexadecimal, exponents, fractions): such a field is treated as NaN.
- `CheckIn.Cutoff`: `setHours` on a local date is modelled as plain arithmetic from the start of the day. Daylight-saving jumps are not modelled.
- The calendar (weekdays, days in a month), locale date and time strings and time zones: they are inputs.
- `Storage.SeedRecords`: one `now` stands for the four separate `Date.now()` calls of the seeding, which may read different instants.
- `Dashboard.RoundedPercent`: rounding is exact half-up. Floating-point `toFixed(0)` can differ at an exact half.
- The geodesic `calculateDistance`: a function parameter. Only the comparison with the radius is modelled.
- The chart data, the map and every rendered element of the dashboard, and the CSV text it builds. The values in each row are modelled, not the text.
- The vision model: a function parameter from the stripped payload to an outcome. Answers that break the response schema (a missing field, another status) are not modelled.
- Camera capture, microphone and geolocation prompts, and `CameraCapture.tsx`: their outcomes are inputs.
- The Telegram `fetch` in `sendTelegramMessage`: the model computes the message to send. Sending, and its logged failures, are not modelled.
- The loading flag and the asynchronous ordering of state updates: each handler is one atomic update.
- The `onBack` and `onSuccess` callbacks, the password gate and the routing of `App.tsx`.
- `CheckIn.CheckInSession` handlers: their `requires` encode when the rendered screen offers each button. Calls the interface cannot make are not modelled.
- The `uuid` of the import: `newId` gives one id per line index. It is not a call made only for the rows that are imported.
