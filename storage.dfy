/** services/storage.ts: the browser's local storage, modelled as an object whose
    fields are the stored lists.  Every mutator reads a list, changes it and writes
    it back whole; writes never fail and no JSON is involved. */
module Storage {
  import opened Wrappers
  import opened Types
  import Lists

  /** The storage keys of the learning module, read and written by the generic helpers. */
  datatype ListKey = SubjectsKey | ScheduleKey | MaterialsKey | AssignmentsKey | GradesKey | ClassAttendanceKey

  /** An element of a learning-module list; every kind carries an `id`. */
  datatype StoredItem =
    | SubjectItem(subject: Subject)
    | ScheduleEntry(entry: ScheduleItem)
    | MaterialItem(material: LearningMaterial)
    | AssignmentItem(assignment: Assignment)
    | GradeItem(grade: StudentGrade)
    | SessionItem(session: ClassAttendanceSession)
  {
    function Id(): string {
      match this
      case SubjectItem(x) => x.id
      case ScheduleEntry(x) => x.id
      case MaterialItem(x) => x.id
      case AssignmentItem(x) => x.id
      case GradeItem(x) => x.id
      case SessionItem(x) => x.id
    }
  }

  /** The errors the roster mutators throw. */
  datatype StoreError =
    | StudentIdExists(id: string)
    | StudentIdNotFound(id: string)
    | TeacherNipExists(nip: string)
    | TeacherNotFound

  /** `Partial<AttendanceRecord>`: the fields an update gives; None leaves a field as it is. */
  datatype RecordPatch = RecordPatch(
    id: Option<string>,
    studentId: Option<string>,
    studentName: Option<string>,
    timestamp: Option<int>,
    location: Option<LocationData>,
    selfieUrl: Option<string>,
    verificationStatus: Option<VerificationStatus>,
    verificationNote: Option<string>)

  /** The patch `{ verificationStatus: status }`. */
  function StatusPatch(status: VerificationStatus): RecordPatch {
    RecordPatch(None, None, None, None, None, None, Some(status), None)
  }

  /** `{ ...r, ...u }`. */
  function Patched(r: AttendanceRecord, u: RecordPatch): (p: AttendanceRecord)
    ensures u == RecordPatch(None, None, None, None, None, None, None, None) ==> p == r
    ensures u.id.None? ==> p.id == r.id
    ensures u.verificationStatus.Some? ==> p.verificationStatus == u.verificationStatus.value
  {
    AttendanceRecord(
      u.id.GetOr(r.id),
      u.studentId.GetOr(r.studentId),
      u.studentName.GetOr(r.studentName),
      u.timestamp.GetOr(r.timestamp),
      u.location.GetOr(r.location),
      u.selfieUrl.GetOr(r.selfieUrl),
      u.verificationStatus.GetOr(r.verificationStatus),
      if u.verificationNote.Some? then u.verificationNote else r.verificationNote)
  }

  function RecordId(r: AttendanceRecord): string { r.id }
  function StudentKey(s: StudentInfo): string { s.id }
  function TeacherId(t: TeacherInfo): string { t.id }
  function TeacherNip(t: TeacherInfo): string { t.nip }

  /** The list updateAttendanceRecord writes: the first record with `id` is
      patched, every other record is kept, and an unknown id changes nothing. */
  function UpdatedRecords(rs: seq<AttendanceRecord>, id: string, u: RecordPatch): (r: seq<AttendanceRecord>)
    ensures |r| == |rs|
    ensures forall k :: 0 <= k < |rs| ==>
      r[k] == if Lists.IsFirstKey(rs, RecordId, id, k) then Patched(rs[k], u) else rs[k]
    ensures id !in Lists.Keys(rs, RecordId) ==> r == rs
  {
    var i := Lists.IndexOfKey(rs, RecordId, id);
    if i == -1 then
      assert forall k :: 0 <= k < |rs| ==> RecordId(rs[k]) in Lists.Keys(rs, RecordId);
      rs
    else rs[i := Patched(rs[i], u)]
  }

  /** Applying the same update twice equals applying it once, as long as the update
      does not move the record to another id. */
  lemma UpdateIdempotent(rs: seq<AttendanceRecord>, id: string, u: RecordPatch)
    requires u.id.None? || u.id == Some(id)
    ensures UpdatedRecords(UpdatedRecords(rs, id, u), id, u) == UpdatedRecords(rs, id, u)
  {
    var r1 := UpdatedRecords(rs, id, u);
    var r2 := UpdatedRecords(r1, id, u);
    assert forall k :: 0 <= k < |rs| ==> r1[k].id == rs[k].id;
    forall k | 0 <= k < |rs|
      ensures Lists.IsFirstKey(r1, RecordId, id, k) == Lists.IsFirstKey(rs, RecordId, id, k)
    {
    }
    assert r2 == r1;
  }

  /** An update that changes the id is not idempotent: the second application
      patches the next record that still has the old id. */
  lemma UpdateMovingIdNotIdempotent()
    ensures var a := AttendanceRecord("r", "STU001", "n", 0, LocationData(0.0, 0.0, 0.0, 0), "", Pending, None);
            var u := RecordPatch(Some("x"), None, None, None, None, None, None, None);
            UpdatedRecords(UpdatedRecords([a, a], "r", u), "r", u) != UpdatedRecords([a, a], "r", u)
  {
    var a := AttendanceRecord("r", "STU001", "n", 0, LocationData(0.0, 0.0, 0.0, 0), "", Pending, None);
    var u := RecordPatch(Some("x"), None, None, None, None, None, None, None);
    var r1 := UpdatedRecords([a, a], "r", u);
    assert Lists.IsFirstKey([a, a], RecordId, "r", 0);
    assert r1[1] == a;
    assert Lists.IsFirstKey(r1, RecordId, "r", 1);
    assert UpdatedRecords(r1, "r", u)[1] == Patched(a, u) != a;
  }

  /** A patch of the status changes the status of the first matching record and nothing else. */
  lemma StatusPatchTouchesOnlyStatus(r: AttendanceRecord, status: VerificationStatus)
    ensures Patched(r, StatusPatch(status)) == r.(verificationStatus := status)
  {
  }

  // --- Class attendance ---

  /** The stored item is the session being saved: same id, or same (date, class, subject). */
  predicate SessionMatches(s: StoredItem, item: ClassAttendanceSession) {
    s.Id() == item.id
    || (s.SessionItem? && s.session.date == item.date && s.session.className == item.className
        && s.session.subjectId == item.subjectId)
  }

  predicate SameSessionKey(a: ClassAttendanceSession, b: ClassAttendanceSession) {
    a.date == b.date && a.className == b.className && a.subjectId == b.subjectId
  }

  /** No two stored sessions share a (date, class, subject). */
  predicate UniqueSessionKeys(list: seq<StoredItem>) {
    forall i, j :: 0 <= i < j < |list| && list[i].SessionItem? && list[j].SessionItem?
      ==> !SameSessionKey(list[i].session, list[j].session)
  }

  /** The list saveClassAttendance writes: the first matching item is replaced by the
      new session under the stored id, or the session is appended when none matches. */
  function UpsertSession(list: seq<StoredItem>, item: ClassAttendanceSession): (r: seq<StoredItem>)
    ensures (forall k :: 0 <= k < |list| ==> !SessionMatches(list[k], item)) ==> r == list + [SessionItem(item)]
    ensures forall i :: 0 <= i < |list| && SessionMatches(list[i], item)
                        && (forall j :: 0 <= j < i ==> !SessionMatches(list[j], item)) ==>
      r == list[i := SessionItem(item.(id := list[i].Id()))]
  {
    var index := Lists.FindIndex(list, (s: StoredItem) => SessionMatches(s, item));
    if index != -1 then list[index := SessionItem(item.(id := list[index].Id()))]
    else list + [SessionItem(item)]
  }

  /** With a fresh id (the only caller passes a new uuid), saving a session never
      creates a second session for the same (date, class, subject). */
  lemma UpsertKeepsSessionKeysUnique(list: seq<StoredItem>, item: ClassAttendanceSession)
    requires UniqueSessionKeys(list)
    requires forall k :: 0 <= k < |list| ==> list[k].Id() != item.id
    ensures UniqueSessionKeys(UpsertSession(list, item))
  {
    var r := UpsertSession(list, item);
    var index := Lists.FindIndex(list, (s: StoredItem) => SessionMatches(s, item));
    if index == -1 {
      assert r == list + [SessionItem(item)];
      forall i, j | 0 <= i < j < |r| && r[i].SessionItem? && r[j].SessionItem?
        ensures !SameSessionKey(r[i].session, r[j].session)
      {
        if j == |list| {
          assert !SessionMatches(list[i], item);
        } else {
          assert r[i] == list[i] && r[j] == list[j];
        }
      }
    } else {
      assert list[index].SessionItem? && SameSessionKey(list[index].session, item);
      assert r == list[index := SessionItem(item.(id := list[index].Id()))];
      forall i, j | 0 <= i < j < |r| && r[i].SessionItem? && r[j].SessionItem?
        ensures !SameSessionKey(r[i].session, r[j].session)
      {
        if i == index {
          assert !SameSessionKey(list[index].session, list[j].session);
        } else if j == index {
          assert !SameSessionKey(list[i].session, list[index].session);
        } else {
          assert r[i] == list[i] && r[j] == list[j];
        }
      }
    }
  }

  /** Without a fresh id the guarantee fails: an id match on an earlier session of
      another class wins over the later session that has the same key. */
  lemma UpsertWithReusedIdDuplicatesKey()
    ensures var list := [SessionItem(ClassAttendanceSession("x", "12-IPA-1", "SUB01", "2024-05-01", [])),
                         SessionItem(ClassAttendanceSession("y", "12-IPS-2", "SUB01", "2024-05-01", []))];
            var item := ClassAttendanceSession("x", "12-IPS-2", "SUB01", "2024-05-01", []);
            UniqueSessionKeys(list) && !UniqueSessionKeys(UpsertSession(list, item))
  {
    var list := [SessionItem(ClassAttendanceSession("x", "12-IPA-1", "SUB01", "2024-05-01", [])),
                 SessionItem(ClassAttendanceSession("y", "12-IPS-2", "SUB01", "2024-05-01", []))];
    var item := ClassAttendanceSession("x", "12-IPS-2", "SUB01", "2024-05-01", []);
    assert SessionMatches(list[0], item);
    var r := UpsertSession(list, item);
    assert r[0] == SessionItem(item) && r[1] == list[1];
    assert SameSessionKey(r[0].session, r[1].session);
    assert "12-IPA-1" != "12-IPS-2" by { assert "12-IPA-1"[5] != "12-IPS-2"[5]; }
  }

  // --- Settings and seed data ---

  /** The default notification template, spelled in its pieces (the text between
      and including the placeholders) so that proofs about substitution can name them. */
  const DefaultTemplate := "Hello, this is to inform you that " + "{student_name}" + " has arrived at "
                           + "{school_name}" + " at " + "{time}" + " on " + "{date}" + "."

  /** The settings getSettings returns when none have been saved. */
  function DefaultSettings(): AppSettings {
    AppSettings(
      "Sekolah Digital Indonesia", -6.175392, 106.827153, 200.0, "07:00", "15:00",
      Some(""), Some(""), Immediate, DefaultTemplate, DefaultSound, Some(""))
  }

  function SeedRecords(settings: AppSettings, now: int): seq<AttendanceRecord> {
    [ AttendanceRecord("rec_1", "STU001", "Ahmad Santoso", now - 3600000,
        LocationData(settings.schoolLat, settings.schoolLng, 10.0, now),
        "https://picsum.photos/200/200", Verified, Some("Face match confirmed")),
      AttendanceRecord("rec_2", "STU002", "Siti Aminah", now - 7200000,
        LocationData(settings.schoolLat + 0.002, settings.schoolLng + 0.002, 15.0, now),
        "https://picsum.photos/201/201", Pending, Some("Low lighting")) ]
  }

  function SeedStudents(): seq<StudentInfo> {
    [ StudentInfo("STU001", "Ahmad Santoso", Some("12-IPA-1"), Some("628123456789"), Some("12345")),
      StudentInfo("STU002", "Siti Aminah", Some("12-IPA-1"), None, None),
      StudentInfo("STU003", "Budi Hartono", Some("12-IPS-2"), Some("628987654321"), None),
      StudentInfo("STU004", "Dewi Sartika", Some("11-IPA-3"), None, None) ]
  }

  function SeedTeachers(): seq<TeacherInfo> {
    [ TeacherInfo("TCH001", "198501012010011001", "Dr. Budi Santoso", Some("Matematika"), Some("08123456789")),
      TeacherInfo("TCH002", "199002022015022002", "Sari Indah, S.Pd", Some("Bahasa Indonesia"), Some("08198765432")),
      TeacherInfo("TCH003", "198803032012031003", "Joko Widodo, M.Si", Some("Fisika"), None) ]
  }

  function SeedSubjects(): seq<StoredItem> {
    [ SubjectItem(Subject("SUB01", "Matematika", Some("MTK"))),
      SubjectItem(Subject("SUB02", "Bahasa Indonesia", Some("BIND"))),
      SubjectItem(Subject("SUB03", "Fisika", Some("FIS"))),
      SubjectItem(Subject("SUB04", "Bahasa Inggris", Some("BING"))) ]
  }

  function SeedSchedule(): seq<StoredItem> {
    [ ScheduleEntry(ScheduleItem("SCH01", "SUB01", "12-IPA-1", "Monday", "08:00", "09:30")),
      ScheduleEntry(ScheduleItem("SCH02", "SUB03", "12-IPA-1", "Monday", "10:00", "11:30")) ]
  }

  /** The seed students have distinct ids, the uniqueness the mutators maintain. */
  lemma SeedStudentsDistinct()
    ensures Lists.DistinctKeys(SeedStudents(), StudentKey)
  {
    var s := SeedStudents();
    assert s[0].id[5] == '1' && s[1].id[5] == '2' && s[2].id[5] == '3' && s[3].id[5] == '4';
  }

  /** The seed teachers have distinct NIPs. */
  lemma SeedTeachersDistinct()
    ensures Lists.DistinctKeys(SeedTeachers(), TeacherNip)
  {
    var t := SeedTeachers();
    assert t[0].nip[2] == '8' && t[1].nip[2] == '9' && t[2].nip[2] == '8';
    assert t[0].nip[3] == '5' && t[2].nip[3] == '8';
  }

  // --- The store ---

  class LocalStorage {
    var records: seq<AttendanceRecord>
    var students: seq<StudentInfo>
    var teachers: seq<TeacherInfo>
    var lists: map<ListKey, seq<StoredItem>>
    var savedSettings: Option<AppSettings>

    /** A browser profile with nothing stored. */
    constructor ()
      ensures records == [] && students == [] && teachers == []
      ensures lists == map[] && savedSettings == None
    {
      records := [];
      students := [];
      teachers := [];
      lists := map[];
      savedSettings := None;
    }

    // --- Attendance ---

    /** saveAttendance: the new record goes first, the older ones follow in order. */
    method SaveAttendance(record: AttendanceRecord)
      modifies this`records
      ensures records == [record] + old(records)
      ensures |records| == |old(records)| + 1 && records[0] == record && records[1..] == old(records)
    {
      var existing := records;
      records := [record] + existing;
    }

    /** updateAttendanceRecord: patches the first record with `id`; an unknown id writes nothing. */
    method UpdateAttendanceRecord(id: string, updates: RecordPatch)
      modifies this`records
      ensures records == UpdatedRecords(old(records), id, updates)
    {
      var existing := records;
      var index := Lists.IndexOfKey(existing, RecordId, id);
      if index != -1 {
        existing := existing[index := Patched(existing[index], updates)];
        records := existing;
      }
    }

    /** clearRecords. */
    method ClearRecords()
      modifies this`records
      ensures records == []
    {
      records := [];
    }

    // --- Students ---

    /** saveStudent: refuses an id already stored, otherwise appends. */
    method SaveStudent(student: StudentInfo) returns (err: Option<StoreError>)
      modifies this`students
      ensures err.Some? <==> student.id in Lists.Keys(old(students), StudentKey)
      ensures err.Some? ==> err == Some(StudentIdExists(student.id)) && students == old(students)
      ensures err.None? ==> students == old(students) + [student]
      ensures Lists.DistinctKeys(old(students), StudentKey) ==> Lists.DistinctKeys(students, StudentKey)
    {
      var existing := students;
      if Lists.IndexOfKey(existing, StudentKey, student.id) != -1 {
        return Some(StudentIdExists(student.id));
      }
      students := existing + [student];
      err := None;
      if Lists.DistinctKeys(existing, StudentKey) {
        Lists.DistinctConcat(existing, [student], StudentKey);
      }
    }

    /** updateStudent: the student stored under `originalId` is replaced in place,
        unless that id is unknown or the new id belongs to another stored student. */
    method UpdateStudent(originalId: string, updated: StudentInfo) returns (err: Option<StoreError>)
      modifies this`students
      ensures originalId !in Lists.Keys(old(students), StudentKey) ==>
        err == Some(StudentIdNotFound(originalId)) && students == old(students)
      ensures originalId in Lists.Keys(old(students), StudentKey) && originalId != updated.id
              && updated.id in Lists.Keys(old(students), StudentKey) ==>
        err == Some(StudentIdExists(updated.id)) && students == old(students)
      ensures err.None? <==>
        originalId in Lists.Keys(old(students), StudentKey)
        && (originalId == updated.id || updated.id !in Lists.Keys(old(students), StudentKey))
      ensures err.None? ==>
        |students| == |old(students)|
        && forall k :: 0 <= k < |students| ==>
             students[k] == if Lists.IsFirstKey(old(students), StudentKey, originalId, k) then updated
                            else old(students)[k]
      ensures err.Some? ==> students == old(students)
      ensures Lists.DistinctKeys(old(students), StudentKey) ==> Lists.DistinctKeys(students, StudentKey)
    {
      var existing := students;
      var index := Lists.IndexOfKey(existing, StudentKey, originalId);
      if index == -1 {
        return Some(StudentIdNotFound(originalId));
      }
      if originalId != updated.id && Lists.IndexOfKey(existing, StudentKey, updated.id) != -1 {
        return Some(StudentIdExists(updated.id));
      }
      ghost var before := existing;
      existing := existing[index := updated];
      students := existing;
      err := None;
      if Lists.DistinctKeys(before, StudentKey) {
        forall i, j | 0 <= i < j < |existing| ensures existing[i].id != existing[j].id {
          if i == index || j == index {
            var other := if i == index then j else i;
            assert before[other].id in Lists.Keys(before, StudentKey);
            assert before[other].id != originalId;
          }
        }
      }
    }

    /** deleteStudent: removes every student with `id`, keeping the others in order. */
    method DeleteStudent(id: string)
      modifies this`students
      ensures students == WithoutStudent(old(students), id)
      ensures forall k :: 0 <= k < |students| ==> students[k].id != id && students[k] in old(students)
      ensures forall k :: 0 <= k < |old(students)| && old(students)[k].id != id ==> old(students)[k] in students
      ensures Lists.DistinctKeys(old(students), StudentKey) ==> Lists.DistinctKeys(students, StudentKey)
    {
      var existing := students;
      students := WithoutStudent(existing, id);
      if Lists.DistinctKeys(existing, StudentKey) {
        Lists.FilterKeepsDistinct(existing, (s: StudentInfo) => s.id != id, StudentKey);
      }
    }

    /** bulkImportStudents: appends, in input order, each student whose id is neither
        stored nor carried by an earlier student of the batch, and returns how many. */
    method BulkImportStudents(batch: seq<StudentInfo>) returns (count: nat)
      modifies this`students
      ensures students == old(students) + Lists.FirstNew(StudentKey, Lists.Keys(old(students), StudentKey), batch)
      ensures count == |students| - |old(students)|
      ensures count == 0 ==> students == old(students)
      ensures Lists.DistinctKeys(old(students), StudentKey) ==> Lists.DistinctKeys(students, StudentKey)
    {
      var existing := students;
      var existingIds := Lists.Keys(existing, StudentKey);
      ghost var target := Lists.FirstNew(StudentKey, existingIds, batch);
      var newStudents: seq<StudentInfo> := [];
      var i := 0;
      while i < |batch|
        invariant 0 <= i <= |batch|
        invariant newStudents + Lists.FirstNew(StudentKey, existingIds, batch[i..]) == target
      {
        var s := batch[i];
        assert batch[i..][1..] == batch[i + 1..];
        if s.id !in existingIds {
          newStudents := newStudents + [s];
          existingIds := existingIds + {s.id};
        }
        i := i + 1;
      }
      assert batch[i..] == [];
      if |newStudents| > 0 {
        students := existing + newStudents;
      }
      count := |newStudents|;
      if Lists.DistinctKeys(existing, StudentKey) {
        Lists.ImportKeepsDistinct(existing, StudentKey, batch);
      }
    }

    // --- Teachers ---

    /** saveTeacher: refuses a NIP already stored, otherwise appends. */
    method SaveTeacher(teacher: TeacherInfo) returns (err: Option<StoreError>)
      modifies this`teachers
      ensures err.Some? <==> teacher.nip in Lists.Keys(old(teachers), TeacherNip)
      ensures err.Some? ==> err == Some(TeacherNipExists(teacher.nip)) && teachers == old(teachers)
      ensures err.None? ==> teachers == old(teachers) + [teacher]
      ensures Lists.DistinctKeys(old(teachers), TeacherNip) ==> Lists.DistinctKeys(teachers, TeacherNip)
    {
      var existing := teachers;
      if Lists.IndexOfKey(existing, TeacherNip, teacher.nip) != -1 {
        return Some(TeacherNipExists(teacher.nip));
      }
      teachers := existing + [teacher];
      err := None;
      if Lists.DistinctKeys(existing, TeacherNip) {
        Lists.DistinctConcat(existing, [teacher], TeacherNip);
      }
    }

    /** updateTeacher: the teacher stored under id `originalId` is replaced in place,
        unless that id is unknown or a changed NIP is already stored. */
    method UpdateTeacher(originalId: string, updated: TeacherInfo) returns (err: Option<StoreError>)
      modifies this`teachers
      ensures originalId !in Lists.Keys(old(teachers), TeacherId) ==>
        err == Some(TeacherNotFound) && teachers == old(teachers)
      ensures err.None? ==>
        exists index ::
          Lists.IsFirstKey(old(teachers), TeacherId, originalId, index)
          && (old(teachers)[index].nip == updated.nip || updated.nip !in Lists.Keys(old(teachers), TeacherNip))
          && teachers == old(teachers)[index := updated]
      ensures err.Some? ==> teachers == old(teachers)
      ensures err.Some? && originalId in Lists.Keys(old(teachers), TeacherId) ==>
        err == Some(TeacherNipExists(updated.nip)) && updated.nip in Lists.Keys(old(teachers), TeacherNip)
        && old(teachers)[Lists.IndexOfKey(old(teachers), TeacherId, originalId)].nip != updated.nip
      ensures err.None? <==>
        originalId in Lists.Keys(old(teachers), TeacherId)
        && (old(teachers)[Lists.IndexOfKey(old(teachers), TeacherId, originalId)].nip == updated.nip
            || updated.nip !in Lists.Keys(old(teachers), TeacherNip))
      ensures Lists.DistinctKeys(old(teachers), TeacherNip) ==> Lists.DistinctKeys(teachers, TeacherNip)
    {
      var existing := teachers;
      var index := Lists.IndexOfKey(existing, TeacherId, originalId);
      if index == -1 {
        return Some(TeacherNotFound);
      }
      if existing[index].nip != updated.nip && Lists.IndexOfKey(existing, TeacherNip, updated.nip) != -1 {
        return Some(TeacherNipExists(updated.nip));
      }
      ghost var before := existing;
      existing := existing[index := updated];
      teachers := existing;
      err := None;
      if Lists.DistinctKeys(before, TeacherNip) {
        forall i, j | 0 <= i < j < |existing| ensures existing[i].nip != existing[j].nip {
          if i == index || j == index {
            var other := if i == index then j else i;
            assert before[other].nip in Lists.Keys(before, TeacherNip);
            assert before[other].nip != before[index].nip;
          }
        }
      }
    }

    /** deleteTeacher: removes every teacher with id `id`. */
    method DeleteTeacher(id: string)
      modifies this`teachers
      ensures teachers == WithoutTeachers(old(teachers), [id])
      ensures Lists.DistinctKeys(old(teachers), TeacherNip) ==> Lists.DistinctKeys(teachers, TeacherNip)
    {
      var existing := teachers;
      teachers := WithoutTeachers(existing, [id]);
    }

    /** bulkDeleteTeachers: removes exactly the teachers whose id is in `ids`. */
    method BulkDeleteTeachers(ids: seq<string>)
      modifies this`teachers
      ensures teachers == WithoutTeachers(old(teachers), ids)
      ensures Lists.DistinctKeys(old(teachers), TeacherNip) ==> Lists.DistinctKeys(teachers, TeacherNip)
    {
      var existing := teachers;
      teachers := WithoutTeachers(existing, ids);
    }

    /** bulkImportTeachers: as for students, keyed by NIP; returns how many were appended. */
    method BulkImportTeachers(batch: seq<TeacherInfo>) returns (count: nat)
      modifies this`teachers
      ensures teachers == old(teachers) + Lists.FirstNew(TeacherNip, Lists.Keys(old(teachers), TeacherNip), batch)
      ensures count == |teachers| - |old(teachers)|
      ensures count == 0 ==> teachers == old(teachers)
      ensures Lists.DistinctKeys(old(teachers), TeacherNip) ==> Lists.DistinctKeys(teachers, TeacherNip)
    {
      var existing := teachers;
      var existingNips := Lists.Keys(existing, TeacherNip);
      ghost var target := Lists.FirstNew(TeacherNip, existingNips, batch);
      var newTeachers: seq<TeacherInfo> := [];
      var i := 0;
      while i < |batch|
        invariant 0 <= i <= |batch|
        invariant newTeachers + Lists.FirstNew(TeacherNip, existingNips, batch[i..]) == target
      {
        var t := batch[i];
        assert batch[i..][1..] == batch[i + 1..];
        if t.nip !in existingNips {
          newTeachers := newTeachers + [t];
          existingNips := existingNips + {t.nip};
        }
        i := i + 1;
      }
      assert batch[i..] == [];
      if |newTeachers| > 0 {
        teachers := existing + newTeachers;
      }
      count := |newTeachers|;
      if Lists.DistinctKeys(existing, TeacherNip) {
        Lists.ImportKeepsDistinct(existing, TeacherNip, batch);
      }
    }

    // --- Learning module lists ---

    /** getList: the list stored under `key`, or the empty list when nothing is stored. */
    function GetList(key: ListKey): seq<StoredItem>
      reads this`lists
    {
      if key in lists then lists[key] else []
    }

    /** saveItem: appends `item` to the list under `key`. */
    method SaveItem(key: ListKey, item: StoredItem)
      modifies this`lists
      ensures GetList(key) == old(GetList(key)) + [item]
      ensures forall other :: other != key ==> GetList(other) == old(GetList(other))
    {
      var list := GetList(key);
      lists := lists[key := list + [item]];
    }

    /** deleteItem: removes every item with `id` from the list under `key`. */
    method DeleteItem(key: ListKey, id: string)
      modifies this`lists
      ensures GetList(key) == WithoutItem(old(GetList(key)), id)
      ensures forall other :: other != key ==> GetList(other) == old(GetList(other))
    {
      var list := GetList(key);
      lists := lists[key := WithoutItem(list, id)];
    }

    /** saveClassAttendance: updates the matching session in place, else appends it. */
    method SaveClassAttendance(item: ClassAttendanceSession)
      modifies this`lists
      ensures GetList(ClassAttendanceKey) == UpsertSession(old(GetList(ClassAttendanceKey)), item)
      ensures forall other :: other != ClassAttendanceKey ==> GetList(other) == old(GetList(other))
      ensures UniqueSessionKeys(old(GetList(ClassAttendanceKey)))
              && (forall k :: 0 <= k < |old(GetList(ClassAttendanceKey))| ==> old(GetList(ClassAttendanceKey))[k].Id() != item.id)
              ==> UniqueSessionKeys(GetList(ClassAttendanceKey))
    {
      var list := GetList(ClassAttendanceKey);
      var index := Lists.FindIndex(list, (s: StoredItem) => SessionMatches(s, item));
      if index != -1 {
        list := list[index := SessionItem(item.(id := list[index].Id()))];
        lists := lists[ClassAttendanceKey := list];
      } else {
        SaveItem(ClassAttendanceKey, SessionItem(item));
      }
      if UniqueSessionKeys(old(GetList(ClassAttendanceKey)))
         && forall k :: 0 <= k < |old(GetList(ClassAttendanceKey))| ==> old(GetList(ClassAttendanceKey))[k].Id() != item.id {
        UpsertKeepsSessionKeysUnique(old(GetList(ClassAttendanceKey)), item);
      }
    }

    // --- Settings ---

    /** getSettings: the saved settings, or the defaults when none were saved. */
    function GetSettings(): AppSettings
      reads this`savedSettings
    {
      savedSettings.GetOr(DefaultSettings())
    }

    /** saveSettings: what getSettings returns from now on. */
    method SaveSettings(settings: AppSettings)
      modifies this`savedSettings
      ensures GetSettings() == settings
    {
      savedSettings := Some(settings);
    }

    // --- Seeding ---

    /** seedDatabase: fills each empty list with demonstration data and leaves every
        non-empty one alone; seeding the subjects also overwrites the schedule. */
    method SeedDatabase(now: int)
      modifies this`records, this`students, this`teachers, this`lists
      ensures records == if old(records) == [] then SeedRecords(GetSettings(), now) else old(records)
      ensures students == if old(students) == [] then SeedStudents() else old(students)
      ensures teachers == if old(teachers) == [] then SeedTeachers() else old(teachers)
      ensures lists == if old(GetList(SubjectsKey)) == [] then old(lists)[SubjectsKey := SeedSubjects()][ScheduleKey := SeedSchedule()]
                       else old(lists)
      ensures records != [] && students != [] && teachers != [] && GetList(SubjectsKey) != []
    {
      SeedRecordsIfEmpty(now);
      SeedRostersIfEmpty();
      SeedSubjectsIfEmpty();
    }

    /** The attendance part of seedDatabase: two records stamped relative to `now`. */
    method SeedRecordsIfEmpty(now: int)
      modifies this`records
      ensures records == if old(records) == [] then SeedRecords(GetSettings(), now) else old(records)
      ensures records != []
    {
      if |records| == 0 {
        var settings := GetSettings();
        records := SeedRecords(settings, now);
      }
    }

    /** The roster part of seedDatabase: students and teachers, each list on its own. */
    method SeedRostersIfEmpty()
      modifies this`students, this`teachers
      ensures students == if old(students) == [] then SeedStudents() else old(students)
      ensures teachers == if old(teachers) == [] then SeedTeachers() else old(teachers)
      ensures students != [] && teachers != []
    {
      if |students| == 0 {
        students := SeedStudents();
      }
      if |teachers| == 0 {
        teachers := SeedTeachers();
      }
    }

    /** The learning-module part of seedDatabase: the subjects, and with them the schedule. */
    method SeedSubjectsIfEmpty()
      modifies this`lists
      ensures lists == if old(GetList(SubjectsKey)) == [] then old(lists)[SubjectsKey := SeedSubjects()][ScheduleKey := SeedSchedule()]
                       else old(lists)
      ensures GetList(SubjectsKey) != []
    {
      if |GetList(SubjectsKey)| == 0 {
        lists := lists[SubjectsKey := SeedSubjects()];
        lists := lists[ScheduleKey := SeedSchedule()];
      }
    }
  }

  /** The students whose id is not `id`, in their order. */
  function WithoutStudent(existing: seq<StudentInfo>, id: string): (r: seq<StudentInfo>)
    ensures forall k :: 0 <= k < |r| ==> r[k] in existing && r[k].id != id
    ensures forall k :: 0 <= k < |existing| && existing[k].id != id ==> existing[k] in r
  {
    Lists.Filter(existing, (s: StudentInfo) => s.id != id)
  }

  /** The teachers whose id is not in `ids`, in their order. */
  function WithoutTeachers(existing: seq<TeacherInfo>, ids: seq<string>): (r: seq<TeacherInfo>)
    ensures forall k :: 0 <= k < |r| ==> r[k] in existing && r[k].id !in ids
    ensures forall k :: 0 <= k < |existing| && existing[k].id !in ids ==> existing[k] in r
    ensures Lists.DistinctKeys(existing, TeacherNip) ==> Lists.DistinctKeys(r, TeacherNip)
  {
    var idSet := set k | 0 <= k < |ids| :: ids[k];
    assert forall x :: x in idSet <==> x in ids;
    var keep := (t: TeacherInfo) => t.id !in idSet;
    if Lists.DistinctKeys(existing, TeacherNip) then
      Lists.FilterKeepsDistinct(existing, keep, TeacherNip);
      Lists.Filter(existing, keep)
    else Lists.Filter(existing, keep)
  }

  /** The items whose id is not `id`, in their order. */
  function WithoutItem(list: seq<StoredItem>, id: string): seq<StoredItem> {
    Lists.Filter(list, (i: StoredItem) => i.Id() != id)
  }
}
