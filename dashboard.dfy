/** components/Dashboard.tsx, the logic behind the admin views: lateness in the log
    table and the CSV export, the geofence verdict, the status counters, the
    monthly recap, the CSV imports, the teacher selection and the review buttons.
    Dates in the local calendar and the geodesic distance are inputs. */
module Dashboard {
  import opened Wrappers
  import opened Types
  import JsString
  import Lists
  import Storage
  import CheckIn

  // --- Lateness, as the export and the log table compute it ---

  /** handleExportCSV: `isLate` and `minutesLate` of a record, with `dayStart` the
      start of the local day of its timestamp. */
  function ExportLateness(r: AttendanceRecord, dayStart: int, settings: AppSettings): CheckIn.LateStatus {
    ExportLatenessFrom(r.timestamp, dayStart, CheckIn.ParseStartTime(settings.startTime))
  }

  /** The export's own copy of the rule, once the start time is parsed. */
  function ExportLatenessFrom(t: int, dayStart: int, start: Option<CheckIn.Clock>): CheckIn.LateStatus {
    var isLate := start.Some? && t > CheckIn.Cutoff(dayStart, start.value);
    CheckIn.LateStatus(isLate, if isLate then (t - CheckIn.Cutoff(dayStart, start.value)) / 60000 else 0)
  }

  /** The log table's `isLate`. */
  predicate LogRowIsLate(r: AttendanceRecord, dayStart: int, settings: AppSettings) {
    var start := CheckIn.ParseStartTime(settings.startTime);
    start.Some? && r.timestamp > CheckIn.Cutoff(dayStart, start.value)
  }

  /** The three copies of the rule agree: for a record saved at `now` with the same
      start time, the export and the log table report what the check-in reported. */
  lemma LatenessCopiesAgree(r: AttendanceRecord, dayStart: int, settings: AppSettings)
    ensures ExportLateness(r, dayStart, settings)
            == CheckIn.Lateness(r.timestamp, dayStart, CheckIn.ParseStartTime(settings.startTime))
    ensures LogRowIsLate(r, dayStart, settings)
            == CheckIn.Lateness(r.timestamp, dayStart, CheckIn.ParseStartTime(settings.startTime)).isLate
  {
    ExportRuleAgrees(r.timestamp, dayStart, CheckIn.ParseStartTime(settings.startTime));
    LogCopyAgrees(r, dayStart, settings);
  }

  /** The export's rule and the check-in's agree on every parsed start time. */
  lemma ExportRuleAgrees(t: int, dayStart: int, start: Option<CheckIn.Clock>)
    ensures ExportLatenessFrom(t, dayStart, start) == CheckIn.Lateness(t, dayStart, start)
  {
  }

  /** The log table's test and the check-in's agree on whether a record is late. */
  lemma LogCopyAgrees(r: AttendanceRecord, dayStart: int, settings: AppSettings)
    ensures LogRowIsLate(r, dayStart, settings)
            == CheckIn.Lateness(r.timestamp, dayStart, CheckIn.ParseStartTime(settings.startTime)).isLate
  {
  }

  // --- Geofence ---

  /** `calculateDistance(lat1, lon1, lat2, lon2)`, in metres; not modelled. */
  type Distance = (real, real, real, real) -> real

  /** The log table's badge: out of range iff strictly farther than the radius. */
  predicate IsOutOfRange(r: AttendanceRecord, settings: AppSettings, dist: Distance) {
    dist(r.location.latitude, r.location.longitude, settings.schoolLat, settings.schoolLng) > settings.radiusMeters
  }

  /** A record exactly on the boundary is in range. */
  lemma BoundaryIsInRange(r: AttendanceRecord, settings: AppSettings, dist: Distance)
    requires dist(r.location.latitude, r.location.longitude, settings.schoolLat, settings.schoolLng) == settings.radiusMeters
    ensures !IsOutOfRange(r, settings, dist)
  {
  }

  /** Widening the geofence never puts a record out of range. */
  lemma WiderRadiusKeepsInRange(r: AttendanceRecord, settings: AppSettings, radius: real, dist: Distance)
    requires radius >= settings.radiusMeters && !IsOutOfRange(r, settings, dist)
    ensures !IsOutOfRange(r, settings.(radiusMeters := radius), dist)
  {
  }

  // --- Status counters ---

  predicate IsVerifiedRecord(r: AttendanceRecord) { r.verificationStatus == Verified }
  predicate IsPendingRecord(r: AttendanceRecord) { r.verificationStatus == Pending }
  predicate IsRejectedRecord(r: AttendanceRecord) { r.verificationStatus == Rejected }

  datatype Stats = Stats(total: nat, verified: nat, pending: nat, rejected: nat)

  lemma {:induction false} StatusPartition(records: seq<AttendanceRecord>)
    ensures |Lists.Filter(records, IsVerifiedRecord)| + |Lists.Filter(records, IsPendingRecord)|
            + |Lists.Filter(records, IsRejectedRecord)| == |records|
  {
    if records != [] {
      StatusPartition(records[1..]);
    }
  }

  /** `stats`: the status is three-valued, so the three counters add up to the total. */
  function ComputeStats(records: seq<AttendanceRecord>): (r: Stats)
    ensures r.total == |records|
    ensures r.verified + r.pending + r.rejected == r.total
  {
    StatusPartition(records);
    Stats(|records|, |Lists.Filter(records, IsVerifiedRecord)|, |Lists.Filter(records, IsPendingRecord)|,
          |Lists.Filter(records, IsRejectedRecord)|)
  }

  // --- Review ---

  /** The Approve/Reject buttons of a log row: offered only for pending records. */
  function ReviewActions(r: AttendanceRecord): (actions: set<VerificationStatus>)
    ensures actions != {} <==> r.verificationStatus == Pending
    ensures Pending !in actions
  {
    if r.verificationStatus == Pending then {Verified, Rejected} else {}
  }

  /** handleUpdateStatus: patches the status of the record with `id` and nothing else. */
  method HandleUpdateStatus(store: Storage.LocalStorage, id: string, status: VerificationStatus)
    requires status != Pending
    modifies store`records
    ensures store.records == Storage.UpdatedRecords(old(store.records), id, Storage.StatusPatch(status))
    ensures |store.records| == |old(store.records)|
    ensures forall k :: 0 <= k < |store.records| ==>
      store.records[k] == if Lists.IsFirstKey(old(store.records), Storage.RecordId, id, k)
                          then old(store.records)[k].(verificationStatus := status) else old(store.records)[k]
  {
    store.UpdateAttendanceRecord(id, Storage.StatusPatch(status));
  }

  /** Approving or rejecting the same record twice leaves what the first click left. */
  lemma StatusUpdateIdempotent(records: seq<AttendanceRecord>, id: string, status: VerificationStatus)
    ensures Storage.UpdatedRecords(Storage.UpdatedRecords(records, id, Storage.StatusPatch(status)), id, Storage.StatusPatch(status))
            == Storage.UpdatedRecords(records, id, Storage.StatusPatch(status))
  {
    Storage.UpdateIdempotent(records, id, Storage.StatusPatch(status));
  }

  /** Once reviewed, a record offers no further review. */
  lemma ReviewedRecordOffersNothing(records: seq<AttendanceRecord>, id: string, status: VerificationStatus, k: nat)
    requires status != Pending && k < |records| && Lists.IsFirstKey(records, Storage.RecordId, id, k)
    ensures ReviewActions(Storage.UpdatedRecords(records, id, Storage.StatusPatch(status))[k]) == {}
  {
  }

  // --- Teacher selection ---

  /** handleToggleTeacherSelection. */
  function Toggle(selected: set<string>, id: string): (r: set<string>)
    ensures id in r <==> id !in selected
    ensures r - {id} == selected - {id}
  {
    if id in selected then selected - {id} else selected + {id}
  }

  /** Toggling twice restores the selection. */
  lemma ToggleTwice(selected: set<string>, id: string)
    ensures Toggle(Toggle(selected, id), id) == selected
  {
    var once := Toggle(selected, id);
    var twice := Toggle(once, id);
    assert twice - {id} == selected - {id};
    assert id in twice <==> id in selected;
  }

  /** handleSelectAllTeachers: every teacher's id when checked, none otherwise. */
  function SelectAll(teachers: seq<TeacherInfo>, checked: bool): (r: set<string>)
    ensures checked ==> forall k :: 0 <= k < |teachers| ==> teachers[k].id in r
    ensures checked ==> forall x :: x in r ==> exists k :: 0 <= k < |teachers| && teachers[k].id == x
    ensures !checked ==> r == {}
  {
    if checked then Lists.Keys(teachers, Storage.TeacherId) else {}
  }

  /** Deleting a select-all selection removes every teacher. */
  lemma DeleteAllSelected(teachers: seq<TeacherInfo>, ids: seq<string>)
    requires forall k :: 0 <= k < |ids| ==> ids[k] in SelectAll(teachers, true)
    requires forall x :: x in SelectAll(teachers, true) ==> x in ids
    ensures Storage.WithoutTeachers(teachers, ids) == []
  {
    var idSet := set k | 0 <= k < |ids| :: ids[k];
    assert forall x :: x in idSet <==> x in ids;
    var keep := (t: TeacherInfo) => t.id !in idSet;
    forall k | 0 <= k < |teachers| ensures !keep(teachers[k]) {
      assert teachers[k].id in SelectAll(teachers, true);
    }
    Lists.FilterNone(teachers, keep);
  }

  // --- Class filter ---

  /** `filteredStudents`: every student for 'All' (None), else those of that class. */
  function FilterByClass(students: seq<StudentInfo>, classFilter: Option<string>): (r: seq<StudentInfo>)
    ensures classFilter.None? ==> r == students
    ensures forall k :: 0 <= k < |r| ==> r[k] in students && (classFilter.Some? ==> r[k].className == classFilter)
    ensures forall k :: 0 <= k < |students| && (classFilter.None? || students[k].className == classFilter)
                        ==> students[k] in r
  {
    var keep := (s: StudentInfo) => classFilter.None? || s.className == classFilter;
    if classFilter.None? then
      Lists.FilterAll(students, keep);
      Lists.Filter(students, keep)
    else Lists.Filter(students, keep)
  }

  // --- Monthly recap ---

  /** A day of the month: whether it is a Saturday or Sunday, and its local date string. */
  datatype CalendarDay = CalendarDay(isWeekend: bool, date: string)

  /** The cell of a day: v (present), - (weekend without a visit), x (absent). */
  datatype RecapMark = PresentMark | WeekendMark | AbsentMark

  /** The `records.find` of the recap: a verified record of the student on that date,
      with `dateOf` the local date string of a timestamp. */
  predicate IsVerifiedVisit(r: AttendanceRecord, studentId: string, dateOf: int -> string, date: string) {
    r.studentId == studentId && dateOf(r.timestamp) == date && r.verificationStatus == Verified
  }

  predicate PresentOn(records: seq<AttendanceRecord>, studentId: string, dateOf: int -> string, date: string) {
    exists k :: 0 <= k < |records| && IsVerifiedVisit(records[k], studentId, dateOf, date)
  }

  /** Working days: the days that are not weekend days. */
  function WorkingDays(days: seq<CalendarDay>): nat {
    if days == [] then 0
    else WorkingDays(days[..|days| - 1]) + (if days[|days| - 1].isWeekend then 0 else 1)
  }

  /** Present days: the days, weekend or not, with a verified visit. */
  function PresentDays(records: seq<AttendanceRecord>, studentId: string, dateOf: int -> string,
                       days: seq<CalendarDay>): nat
  {
    if days == [] then 0
    else PresentDays(records, studentId, dateOf, days[..|days| - 1])
         + (if PresentOn(records, studentId, dateOf, days[|days| - 1].date) then 1 else 0)
  }

  function MarkOf(records: seq<AttendanceRecord>, studentId: string, dateOf: int -> string, day: CalendarDay): (m: RecapMark)
    ensures m == PresentMark <==> PresentOn(records, studentId, dateOf, day.date)
    ensures m == AbsentMark <==> !PresentOn(records, studentId, dateOf, day.date) && !day.isWeekend
  {
    if PresentOn(records, studentId, dateOf, day.date) then PresentMark
    else if day.isWeekend then WeekendMark else AbsentMark
  }

  /** Percent as `toFixed(0)` renders it for an exact quotient: the nearest whole
      percent, halves rounded up. */
  function RoundedPercent(present: nat, working: nat): (r: nat)
    requires working > 0
    ensures 2 * r * working <= 200 * present + working < 2 * (r + 1) * working
  {
    (200 * present + working) / (2 * working)
  }

  /** One row of the recap. */
  datatype RecapRow = RecapRow(marks: seq<RecapMark>, present: nat, working: nat, alpa: int, percent: nat)

  /** What a row holds, as a function of the month's days and the records. */
  function RecapRowOf(records: seq<AttendanceRecord>, studentId: string, dateOf: int -> string,
                      days: seq<CalendarDay>): (r: RecapRow)
    ensures |r.marks| == |days| && r.present <= |days| && r.working <= |days|
    ensures r.alpa == r.working - r.present
    ensures r.working == 0 ==> r.percent == 0
  {
    WorkingDaysAtMostDays(days);
    PresentAtMostDays(records, studentId, dateOf, days);
    var present := PresentDays(records, studentId, dateOf, days);
    var working := WorkingDays(days);
    RecapRow(seq(|days|, k requires 0 <= k < |days| => MarkOf(records, studentId, dateOf, days[k])),
             present, working, working - present,
             if working > 0 then RoundedPercent(present, working) else 0)
  }

  /** The per-student loop of handleExportRecap, which the recap tab repeats: each day
      counts as a working day unless it is a weekend, and as present when some
      verified record of the student falls on it. */
  method StudentRecap(records: seq<AttendanceRecord>, student: StudentInfo, dateOf: int -> string,
                      days: seq<CalendarDay>) returns (row: RecapRow)
    ensures row == RecapRowOf(records, student.id, dateOf, days)
  {
    var marks: seq<RecapMark> := [];
    var presentCount: nat := 0;
    var workingDaysCount: nat := 0;
    var d := 0;
    while d < |days|
      invariant 0 <= d <= |days|
      invariant presentCount == PresentDays(records, student.id, dateOf, days[..d])
      invariant workingDaysCount == WorkingDays(days[..d])
      invariant |marks| == d && forall k :: 0 <= k < d ==> marks[k] == MarkOf(records, student.id, dateOf, days[k])
    {
      var day := days[d];
      assert days[..d + 1][..d] == days[..d];
      if !day.isWeekend {
        workingDaysCount := workingDaysCount + 1;
      }
      var hasRecord := Lists.FindIndex(records, (r: AttendanceRecord) => IsVerifiedVisit(r, student.id, dateOf, day.date));
      if hasRecord != -1 {
        marks := marks + [PresentMark];
        presentCount := presentCount + 1;
      } else {
        marks := marks + [if day.isWeekend then WeekendMark else AbsentMark];
      }
      d := d + 1;
    }
    assert days[..d] == days;
    var alpa := workingDaysCount - presentCount;
    var percent := if workingDaysCount > 0 then RoundedPercent(presentCount, workingDaysCount) else 0;
    row := RecapRow(marks, presentCount, workingDaysCount, alpa, percent);
  }

  /** handleExportRecap: one row per student of the class filter, in roster order. */
  method ExportRecap(records: seq<AttendanceRecord>, students: seq<StudentInfo>, classFilter: Option<string>,
                     dateOf: int -> string, days: seq<CalendarDay>) returns (rows: seq<RecapRow>)
    ensures |rows| == |FilterByClass(students, classFilter)|
    ensures forall k :: 0 <= k < |rows| ==>
      rows[k] == RecapRowOf(records, FilterByClass(students, classFilter)[k].id, dateOf, days)
  {
    var filtered := FilterByClass(students, classFilter);
    rows := [];
    var i := 0;
    while i < |filtered|
      invariant 0 <= i <= |filtered|
      invariant |rows| == i
      invariant forall k :: 0 <= k < i ==> rows[k] == RecapRowOf(records, filtered[k].id, dateOf, days)
    {
      var row := StudentRecap(records, filtered[i], dateOf, days);
      rows := rows + [row];
      i := i + 1;
    }
  }

  lemma {:induction false} WorkingDaysAtMostDays(days: seq<CalendarDay>)
    ensures WorkingDays(days) <= |days|
  {
    if days != [] {
      WorkingDaysAtMostDays(days[..|days| - 1]);
    }
  }

  /** A day counts at most once, so a student is never present on more days than the month has. */
  lemma {:induction false} PresentAtMostDays(records: seq<AttendanceRecord>, studentId: string,
                                             dateOf: int -> string, days: seq<CalendarDay>)
    ensures PresentDays(records, studentId, dateOf, days) <= |days|
  {
    if days != [] {
      PresentAtMostDays(records, studentId, dateOf, days[..|days| - 1]);
    }
  }

  lemma PresentOnIgnores(records: seq<AttendanceRecord>, r: AttendanceRecord, studentId: string,
                         dateOf: int -> string, date: string)
    requires r.verificationStatus != Verified || r in records
    ensures PresentOn(records + [r], studentId, dateOf, date) == PresentOn(records, studentId, dateOf, date)
  {
    var all := records + [r];
    if PresentOn(all, studentId, dateOf, date) {
      var k :| 0 <= k < |all| && IsVerifiedVisit(all[k], studentId, dateOf, date);
      if k == |records| {
        var j :| 0 <= j < |records| && records[j] == r;
        assert IsVerifiedVisit(records[j], studentId, dateOf, date);
      } else {
        assert all[k] == records[k];
      }
    }
    if PresentOn(records, studentId, dateOf, date) {
      var k :| 0 <= k < |records| && IsVerifiedVisit(records[k], studentId, dateOf, date);
      assert all[k] == records[k];
    }
  }

  /** Pending and rejected records never count, and neither does a second copy of a
      record already there: adding such a record changes no present count. */
  lemma {:induction false} IgnoredRecordKeepsPresence(records: seq<AttendanceRecord>, r: AttendanceRecord,
                                                      studentId: string, dateOf: int -> string, days: seq<CalendarDay>)
    requires r.verificationStatus != Verified || r in records
    ensures PresentDays(records + [r], studentId, dateOf, days) == PresentDays(records, studentId, dateOf, days)
  {
    if days != [] {
      IgnoredRecordKeepsPresence(records, r, studentId, dateOf, days[..|days| - 1]);
      PresentOnIgnores(records, r, studentId, dateOf, days[|days| - 1].date);
    }
  }

  /** Alpa is working days minus present days, and present days include weekends:
      a verified visit on a weekend of a month with no working day gives alpa -1. */
  lemma AlpaCanBeNegative(r: AttendanceRecord, dateOf: int -> string)
    requires r.verificationStatus == Verified
    ensures RecapRowOf([r], r.studentId, dateOf, [CalendarDay(true, dateOf(r.timestamp))]).alpa == -1
  {
    var days := [CalendarDay(true, dateOf(r.timestamp))];
    assert days[..|days| - 1] == [];
    assert IsVerifiedVisit([r][0], r.studentId, dateOf, dateOf(r.timestamp));
    assert PresentOn([r], r.studentId, dateOf, days[0].date);
    assert PresentDays([r], r.studentId, dateOf, days) == 1;
    assert WorkingDays(days) == 0;
  }

  // --- CSV import ---

  /** Destructuring `[a, b, ...] = fields`: a missing field is undefined. */
  function Field(fields: seq<string>, k: nat): Option<string> {
    if k < |fields| then Some(fields[k]) else None
  }

  /** `field?.trim()`. */
  function TrimField(f: Option<string>): Option<string> {
    match f
    case None => None
    case Some(x) => Some(JsString.Trim(x))
  }

  /** The first comma-separated field of a trimmed, non-empty line, when not empty,
      keeps something after trimming. */
  lemma FirstFieldSurvivesTrim(line: string)
    requires line != [] && !JsString.IsSpace(line[0])
    requires JsString.Split(line, ',')[0] != ""
    ensures JsString.Trim(JsString.Split(line, ',')[0]) != ""
  {
    var id := JsString.Split(line, ',')[0];
    if line[0] == ',' {
      assert false;
    }
    JsString.SplitFirstPiece(line, ',');
    JsString.TrimKeepsLeadingText(id);
  }

  /** The student a line of the students CSV yields, if any. */
  function StudentRow(rawLine: string): (r: Option<StudentInfo>)
    ensures r.Some? ==> r.value.id != ""
    ensures JsString.Trim(rawLine) == "" ==> r.None?
  {
    var line := JsString.Trim(rawLine);
    if line == "" then None
    else
      var fields := JsString.Split(line, ',');
      var id, name := fields[0], Field(fields, 1);
      if id != "" && CheckIn.Truthy(name) then
        FirstFieldSurvivesTrim(line);
        Some(StudentInfo(JsString.Trim(id), JsString.Trim(name.value), TrimField(Field(fields, 2)),
                         TrimField(Field(fields, 3)), TrimField(Field(fields, 4))))
      else None
  }

  /** `if (line)` and then `if (id && name)`: a line is imported exactly when, once
      trimmed, it is not empty, its first field is not empty and its second field
      exists and is not empty. A missing or empty raw name drops the row. */
  lemma StudentRowImported(rawLine: string)
    ensures var fields := JsString.Split(JsString.Trim(rawLine), ',');
            StudentRow(rawLine).Some? <==>
              JsString.Trim(rawLine) != "" && fields[0] != "" && CheckIn.Truthy(Field(fields, 1))
  { }

  /** An optional field that is absent, or present without surrounding white space. */
  predicate TrimmedField(f: Option<string>) {
    f.Some? ==> JsString.Trim(f.value) == f.value
  }

  lemma TrimFieldTrimmed(f: Option<string>)
    ensures TrimmedField(TrimField(f))
  {
    if f.Some? {
      JsString.TrimIdempotent(f.value);
    }
  }

  /** Every field a row yields carries no surrounding white space, and an optional
      field is present exactly when the line has that many fields. */
  lemma StudentRowTrimmed(rawLine: string)
    requires StudentRow(rawLine).Some?
    ensures var st := StudentRow(rawLine).value;
            JsString.Trim(st.id) == st.id && JsString.Trim(st.name) == st.name
            && TrimmedField(st.className) && TrimmedField(st.parentWhatsapp) && TrimmedField(st.telegramChatId)
    ensures var st := StudentRow(rawLine).value;
            var n := |JsString.Split(JsString.Trim(rawLine), ',')|;
            (st.className.Some? <==> n > 2) && (st.parentWhatsapp.Some? <==> n > 3)
            && (st.telegramChatId.Some? <==> n > 4)
  {
    var fields := JsString.Split(JsString.Trim(rawLine), ',');
    JsString.TrimIdempotent(fields[0]);
    JsString.TrimIdempotent(fields[1]);
    TrimFieldTrimmed(Field(fields, 2));
    TrimFieldTrimmed(Field(fields, 3));
    TrimFieldTrimmed(Field(fields, 4));
  }

  function OptionToSeq<T>(o: Option<T>): seq<T> {
    if o.Some? then [o.value] else []
  }

  /** The students a run of data lines yields, in order. */
  function StudentsFromLines(lines: seq<string>): (r: seq<StudentInfo>)
    ensures |r| <= |lines|
    ensures forall k :: 0 <= k < |r| ==> r[k].id != ""
  {
    if lines == [] then []
    else StudentsFromLines(lines[..|lines| - 1]) + OptionToSeq(StudentRow(lines[|lines| - 1]))
  }

  /** What handleImportCSV hands to bulkImportStudents: the rows after the header. */
  function StudentsFromCsv(text: string): seq<StudentInfo> {
    StudentsFromLines(JsString.Split(text, '\n')[1..])
  }

  lemma StudentsFromLinesSnoc(lines: seq<string>, i: nat)
    requires 1 <= i < |lines|
    ensures StudentsFromLines(lines[1..i + 1]) == StudentsFromLines(lines[1..i]) + OptionToSeq(StudentRow(lines[i]))
  {
    var l := lines[1..i + 1];
    assert l[..|l| - 1] == lines[1..i];
    assert l[|l| - 1] == lines[i];
  }

  /** The loop of handleImportCSV. */
  method ImportStudentsCsv(text: string) returns (importedStudents: seq<StudentInfo>)
    ensures importedStudents == StudentsFromCsv(text)
  {
    var lines := JsString.Split(text, '\n');
    importedStudents := [];
    for i := 1 to |lines|
      invariant importedStudents == StudentsFromLines(lines[1..i])
    {
      ghost var before := importedStudents;
      ghost var row := StudentRow(lines[i]);
      var line := JsString.Trim(lines[i]);
      if line != "" {
        var fields := JsString.Split(line, ',');
        var id, name := fields[0], Field(fields, 1);
        if id != "" && CheckIn.Truthy(name) {
          importedStudents := importedStudents + [StudentInfo(JsString.Trim(id), JsString.Trim(name.value),
            TrimField(Field(fields, 2)), TrimField(Field(fields, 3)), TrimField(Field(fields, 4)))];
          assert importedStudents == before + [row.value];
        } else {
          assert row == None;
        }
      } else {
        assert row == None;
      }
      assert importedStudents == before + OptionToSeq(row);
      StudentsFromLinesSnoc(lines, i);
    }
    assert lines[1..|lines|] == lines[1..];
  }

  lemma {:induction false} StudentsFromLinesAppend(a: seq<string>, b: seq<string>)
    ensures StudentsFromLines(a + b) == StudentsFromLines(a) + StudentsFromLines(b)
    decreases |b|
  {
    if b == [] {
      assert a + b == a;
    } else {
      var b0 := b[..|b| - 1];
      var last := OptionToSeq(StudentRow(b[|b| - 1]));
      assert (a + b)[..|a + b| - 1] == a + b0;
      assert (a + b)[|a + b| - 1] == b[|b| - 1];
      assert StudentsFromLines(a + b) == StudentsFromLines(a + b0) + last;
      assert StudentsFromLines(b) == StudentsFromLines(b0) + last;
      StudentsFromLinesAppend(a, b0);
    }
  }

  /** The first line is a header and is never imported. */
  lemma HeaderNeverImported(header: string, body: string)
    requires '\n' !in header
    ensures StudentsFromCsv(header + "\n" + body) == StudentsFromLines(JsString.Split(body, '\n'))
  {
    assert header + "\n" + body == header + ['\n'] + body;
    JsString.SplitAtSeparator(header, '\n', body);
  }

  /** A file of one line, the header alone, imports nothing. */
  lemma HeaderOnlyImportsNothing(text: string)
    requires '\n' !in text
    ensures StudentsFromCsv(text) == []
  {
    JsString.SplitWithoutSeparator(text, '\n');
  }

  /** Blank lines, white space included, are skipped wherever they are. */
  lemma BlankLineSkipped(before: seq<string>, blank: string, after: seq<string>)
    requires JsString.Trim(blank) == ""
    ensures StudentsFromLines(before + [blank] + after) == StudentsFromLines(before + after)
  {
    var withBlank := before + [blank];
    assert withBlank[..|withBlank| - 1] == before;
    assert StudentRow(blank) == None;
    assert StudentsFromLines(withBlank) == StudentsFromLines(before);
    StudentsFromLinesAppend(withBlank, after);
    StudentsFromLinesAppend(before, after);
    assert before + [blank] + after == withBlank + after;
  }

  /** The raw name field is tested before it is trimmed, so a name made of white
      space (a line such as "S, ,C") is imported as an empty name. */
  lemma BlankNameImported(id: string, blank: string, className: string)
    requires id != "" && !JsString.IsSpace(id[0]) && ',' !in id
    requires blank != "" && forall k :: 0 <= k < |blank| ==> JsString.IsSpace(blank[k])
    requires className != "" && !JsString.IsSpace(className[|className| - 1]) && ',' !in className
    ensures StudentRow(id + "," + blank + "," + className).Some?
    ensures StudentRow(id + "," + blank + "," + className).value.name == ""
  {
    var line := id + "," + blank + "," + className;
    assert line[0] == id[0] && line[|line| - 1] == className[|className| - 1];
    JsString.TrimUnchanged(line);
    assert ',' !in blank by {
      assert !JsString.IsSpace(',');
    }
    JsString.ThreeFields(id, blank, className);
    JsString.TrimAllSpace(blank);
  }

  /** The teacher a line of the teachers CSV yields, if any; `id` is its fresh uuid. */
  function TeacherRow(rawLine: string, id: string): (r: Option<TeacherInfo>)
    ensures r.Some? ==> r.value.nip != "" && r.value.id == id
    ensures JsString.Trim(rawLine) == "" ==> r.None?
  {
    var line := JsString.Trim(rawLine);
    if line == "" then None
    else
      var fields := JsString.Split(line, ',');
      var nip, name := fields[0], Field(fields, 1);
      if nip != "" && CheckIn.Truthy(name) then
        FirstFieldSurvivesTrim(line);
        Some(TeacherInfo(id, JsString.Trim(nip), JsString.Trim(name.value), TrimField(Field(fields, 2)),
                         TrimField(Field(fields, 3))))
      else None
  }

  /** `if (line)` and then `if (nip && name)`: a line is imported exactly when, once
      trimmed, it is not empty, its NIP field is not empty and its name field exists
      and is not empty. */
  lemma TeacherRowImported(rawLine: string, id: string)
    ensures var fields := JsString.Split(JsString.Trim(rawLine), ',');
            TeacherRow(rawLine, id).Some? <==>
              JsString.Trim(rawLine) != "" && fields[0] != "" && CheckIn.Truthy(Field(fields, 1))
  { }

  /** Every field a teacher row yields carries no surrounding white space, and an
      optional field is present exactly when the line has that many fields. */
  lemma TeacherRowTrimmed(rawLine: string, id: string)
    requires TeacherRow(rawLine, id).Some?
    ensures var t := TeacherRow(rawLine, id).value;
            JsString.Trim(t.nip) == t.nip && JsString.Trim(t.name) == t.name
            && TrimmedField(t.subject) && TrimmedField(t.phone)
    ensures var t := TeacherRow(rawLine, id).value;
            var n := |JsString.Split(JsString.Trim(rawLine), ',')|;
            (t.subject.Some? <==> n > 2) && (t.phone.Some? <==> n > 3)
  {
    var fields := JsString.Split(JsString.Trim(rawLine), ',');
    JsString.TrimIdempotent(fields[0]);
    JsString.TrimIdempotent(fields[1]);
    TrimFieldTrimmed(Field(fields, 2));
    TrimFieldTrimmed(Field(fields, 3));
  }

  /** The teachers a run of lines yields; the line at index n (counted in the whole
      file, which `first` offsets) gets the id `newId(n)`. */
  function TeachersFromLines(lines: seq<string>, first: nat, newId: nat -> string): (r: seq<TeacherInfo>)
    ensures |r| <= |lines|
    ensures forall k :: 0 <= k < |r| ==> r[k].nip != ""
  {
    if lines == [] then []
    else TeachersFromLines(lines[..|lines| - 1], first, newId)
         + OptionToSeq(TeacherRow(lines[|lines| - 1], newId(first + |lines| - 1)))
  }

  function TeachersFromCsv(text: string, newId: nat -> string): seq<TeacherInfo> {
    TeachersFromLines(JsString.Split(text, '\n')[1..], 1, newId)
  }

  lemma TeachersFromLinesSnoc(lines: seq<string>, i: nat, newId: nat -> string)
    requires 1 <= i < |lines|
    ensures TeachersFromLines(lines[1..i + 1], 1, newId)
            == TeachersFromLines(lines[1..i], 1, newId) + OptionToSeq(TeacherRow(lines[i], newId(i)))
  {
    var l := lines[1..i + 1];
    assert l[..|l| - 1] == lines[1..i];
    assert l[|l| - 1] == lines[i];
  }

  /** The loop of handleImportTeachersCSV; `newId` stands for the uuid of each row. */
  method ImportTeachersCsv(text: string, newId: nat -> string) returns (importedTeachers: seq<TeacherInfo>)
    ensures importedTeachers == TeachersFromCsv(text, newId)
  {
    var lines := JsString.Split(text, '\n');
    importedTeachers := [];
    for i := 1 to |lines|
      invariant importedTeachers == TeachersFromLines(lines[1..i], 1, newId)
    {
      ghost var before := importedTeachers;
      ghost var row := TeacherRow(lines[i], newId(i));
      var line := JsString.Trim(lines[i]);
      if line != "" {
        var fields := JsString.Split(line, ',');
        var nip, name := fields[0], Field(fields, 1);
        if nip != "" && CheckIn.Truthy(name) {
          importedTeachers := importedTeachers + [TeacherInfo(newId(i), JsString.Trim(nip), JsString.Trim(name.value),
            TrimField(Field(fields, 2)), TrimField(Field(fields, 3)))];
          assert importedTeachers == before + [row.value];
        } else {
          assert row == None;
        }
      } else {
        assert row == None;
      }
      assert importedTeachers == before + OptionToSeq(row);
      TeachersFromLinesSnoc(lines, i, newId);
    }
    assert lines[1..|lines|] == lines[1..];
  }

  /** The teachers' header is never imported either. */
  lemma TeacherHeaderNeverImported(header: string, body: string, newId: nat -> string)
    requires '\n' !in header
    ensures TeachersFromCsv(header + "\n" + body, newId) == TeachersFromLines(JsString.Split(body, '\n'), 1, newId)
  {
    assert header + "\n" + body == header + ['\n'] + body;
    JsString.SplitAtSeparator(header, '\n', body);
  }
}
