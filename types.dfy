/** The records of types.ts, as values.  Optional TypeScript properties become
    `Option` fields; string-literal unions become enumerations. */
module Types {
  import opened Wrappers

  /** A geolocation fix: degrees, metres, and the epoch-millisecond instant it was taken. */
  datatype LocationData = LocationData(latitude: real, longitude: real, accuracy: real, timestamp: int)

  /** A student of the roster; `className` is the TypeScript property `class`. */
  datatype StudentInfo = StudentInfo(
    id: string,
    name: string,
    className: Option<string>,
    parentWhatsapp: Option<string>,
    telegramChatId: Option<string>)

  /** A teacher; `nip` is the staff registration number and the roster's key. */
  datatype TeacherInfo = TeacherInfo(
    id: string,
    nip: string,
    name: string,
    subject: Option<string>,
    phone: Option<string>)

  datatype VerificationStatus = Verified | Pending | Rejected

  datatype AttendanceRecord = AttendanceRecord(
    id: string,
    studentId: string,
    studentName: string,
    timestamp: int,
    location: LocationData,
    selfieUrl: string,
    verificationStatus: VerificationStatus,
    verificationNote: Option<string>)

  datatype NotificationTiming = Immediate | DailySummary
  datatype NotificationSound = DefaultSound | Chime | Alert | CustomSound

  datatype AppSettings = AppSettings(
    schoolName: string,
    schoolLat: real,
    schoolLng: real,
    radiusMeters: real,
    startTime: string,
    endTime: string,
    schoolLogo: Option<string>,
    telegramBotToken: Option<string>,
    notificationTiming: NotificationTiming,
    notificationTemplate: string,
    notificationSound: NotificationSound,
    customSoundData: Option<string>)

  // --- Learning module ---

  datatype Subject = Subject(id: string, name: string, code: Option<string>)

  datatype ScheduleItem = ScheduleItem(
    id: string, subjectId: string, className: string, day: string, startTime: string, endTime: string)

  datatype MaterialKind = Link | File

  datatype LearningMaterial = LearningMaterial(
    id: string, subjectId: string, className: string, title: string,
    kind: MaterialKind, content: string, description: Option<string>)

  datatype Assignment = Assignment(
    id: string, subjectId: string, className: string, title: string, description: string, deadline: string)

  datatype GradeKind = Daily | AssignmentGrade | Midterm | Final

  datatype StudentGrade = StudentGrade(
    id: string, studentId: string, subjectId: string, assignmentId: Option<string>,
    kind: GradeKind, score: real, date: string)

  /** Hadir (present), Sakit (sick), Ijin (excused), Alpa (absent without leave). */
  datatype ClassMark = H | S | I | A

  datatype MarkEntry = MarkEntry(studentId: string, status: ClassMark)

  datatype ClassAttendanceSession = ClassAttendanceSession(
    id: string, className: string, subjectId: string, date: string, records: seq<MarkEntry>)
}
