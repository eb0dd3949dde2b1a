/** components/StudentCheckIn.tsx: the student check-in flow.  A permission gate
    and then six screens (step 0 choose a method, 1 scan the ID card, 2 confirm it,
    3 take a selfie, 4 fetch the location and submit, 5 the result).  Each handler
    is one atomic update of the session fields; the camera, the geolocation API,
    the clock and the AI calls are inputs. */
module CheckIn {
  import opened Wrappers
  import opened Types
  import JsString
  import Lists
  import Storage
  import Gemini
  import Notification

  // --- Lateness ---

  /** An hour and minute of the day as read from a "HH:MM" setting. */
  datatype Clock = Clock(hour: nat, minute: nat)

  /** `startTime.split(':').map(Number)`: the first two fields as numbers; None when
      either is NaN or missing, which makes the deadline an Invalid Date. */
  function ParseStartTime(s: string): (r: Option<Clock>)
    ensures r.Some? ==> |JsString.Split(s, ':')| >= 2
  {
    var parts := JsString.Split(s, ':');
    if |parts| < 2 then None
    else
      match (JsString.JsNumber(parts[0]), JsString.JsNumber(parts[1]))
      case (Some(h), Some(m)) => Some(Clock(h, m))
      case _ => None
  }

  /** A start time parses exactly when its first two `:` fields are numbers, to
      those two numbers; any further field is ignored. */
  lemma ParseStartTimeFields(s: string)
    ensures var parts := JsString.Split(s, ':');
            ParseStartTime(s).Some? <==>
              |parts| >= 2 && JsString.JsNumber(parts[0]).Some? && JsString.JsNumber(parts[1]).Some?
    ensures var parts := JsString.Split(s, ':');
            ParseStartTime(s).Some? ==>
              ParseStartTime(s).value == Clock(JsString.JsNumber(parts[0]).value, JsString.JsNumber(parts[1]).value)
  {
  }

  /** A time rendered as two two-digit fields parses back to itself. */
  lemma ParseRenderedTime(h: nat, m: nat)
    requires h < 100 && m < 100
    ensures ParseStartTime(JsString.TwoDigits(h) + ":" + JsString.TwoDigits(m)) == Some(Clock(h, m))
  {
    var hh, mm := JsString.TwoDigits(h), JsString.TwoDigits(m);
    assert ':' !in hh;
    assert ':' !in mm;
    assert hh + ":" + mm == hh + [':'] + mm;
    JsString.SplitAtSeparator(hh, ':', mm);
    JsString.SplitWithoutSeparator(mm, ':');
    JsString.DecimalOfTwoDigits(h);
    JsString.DecimalOfTwoDigits(m);
  }

  /** The default start time is seven o'clock. */
  lemma DefaultStartTimeIsSeven()
    ensures ParseStartTime(Storage.DefaultSettings().startTime) == Some(Clock(7, 0))
  {
    assert Storage.DefaultSettings().startTime == JsString.TwoDigits(7) + ":" + JsString.TwoDigits(0);
    ParseRenderedTime(7, 0);
  }

  const MillisPerMinute := 60000
  const MillisPerHour := 3600000

  /** `deadline.setHours(h, m, 0, 0)` on the day that starts at `dayStart`: hours and
      minutes beyond their range roll over into the following ones. */
  function Cutoff(dayStart: int, c: Clock): int {
    dayStart + c.hour * MillisPerHour + c.minute * MillisPerMinute
  }

  /** A clock time within range falls on the day itself; an hour of 24 or more
      rolls the cutoff over into a following day. */
  lemma CutoffWithinDay(dayStart: int, c: Clock)
    ensures Cutoff(dayStart, c) >= dayStart
    ensures c.hour < 24 && c.minute < 60 ==> Cutoff(dayStart, c) < dayStart + 24 * MillisPerHour
    ensures c.hour >= 24 ==> Cutoff(dayStart, c) >= dayStart + 24 * MillisPerHour
  {
    if c.hour < 24 && c.minute < 60 {
      assert c.hour * MillisPerHour <= 23 * MillisPerHour;
      assert c.minute * MillisPerMinute <= 59 * MillisPerMinute;
    }
    if c.hour >= 24 {
      assert c.hour * MillisPerHour >= 24 * MillisPerHour;
    }
  }

  datatype LateStatus = LateStatus(isLate: bool, minutesLate: nat)

  /** Late iff strictly after the cutoff; minutes late are the whole minutes elapsed
      since the cutoff.  An Invalid Date deadline makes every comparison false. */
  function Lateness(now: int, dayStart: int, start: Option<Clock>): (r: LateStatus)
    ensures r.isLate <==> start.Some? && now > Cutoff(dayStart, start.value)
    ensures r.isLate ==> r.minutesLate * MillisPerMinute <= now - Cutoff(dayStart, start.value)
                                                      < (r.minutesLate + 1) * MillisPerMinute
    ensures !r.isLate ==> r.minutesLate == 0
  {
    if start.Some? && now > Cutoff(dayStart, start.value) then
      LateStatus(true, (now - Cutoff(dayStart, start.value)) / MillisPerMinute)
    else LateStatus(false, 0)
  }

  /** Arriving exactly at the cutoff is on time. */
  lemma OnCutoffIsOnTime(dayStart: int, c: Clock)
    ensures Lateness(Cutoff(dayStart, c), dayStart, Some(c)) == LateStatus(false, 0)
  {
  }

  /** One millisecond after the cutoff is late by zero minutes. */
  lemma OneMillisecondLate(dayStart: int, c: Clock)
    ensures Lateness(Cutoff(dayStart, c) + 1, dayStart, Some(c)) == LateStatus(true, 0)
  {
  }

  /** `m` whole minutes and `extra` milliseconds after the cutoff is late by exactly
      `m` minutes (and late at all unless both are zero). */
  lemma WholeMinutesLate(dayStart: int, c: Clock, m: nat, extra: nat)
    requires extra < MillisPerMinute
    ensures Lateness(Cutoff(dayStart, c) + m * MillisPerMinute + extra, dayStart, Some(c))
            == LateStatus(m > 0 || extra > 0, m)
  {
    var r := Lateness(Cutoff(dayStart, c) + m * MillisPerMinute + extra, dayStart, Some(c));
    if r.isLate {
      assert r.minutesLate * MillisPerMinute <= m * MillisPerMinute + extra < (r.minutesLate + 1) * MillisPerMinute;
    }
  }

  /** Arriving later is never less late. */
  lemma LatenessMonotone(now1: int, now2: int, dayStart: int, start: Option<Clock>)
    requires now1 <= now2
    ensures Lateness(now1, dayStart, start).isLate ==> Lateness(now2, dayStart, start).isLate
    ensures Lateness(now1, dayStart, start).minutesLate <= Lateness(now2, dayStart, start).minutesLate
  {
    var a, b := Lateness(now1, dayStart, start), Lateness(now2, dayStart, start);
    if a.isLate {
      assert a.minutesLate * MillisPerMinute < (b.minutesLate + 1) * MillisPerMinute;
    }
  }

  /** What the result screen shows: lateness and the local clock time of the check-in. */
  datatype AttendanceStatus = AttendanceStatus(isLate: bool, minutesLate: nat, time: string)

  // --- The record and the notification ---

  /** `verificationResult?.status || 'pending'`. */
  function RecordStatus(verdict: Option<Gemini.Verdict>): (r: VerificationStatus)
    ensures r == Pending <==> verdict.None?
    ensures r == Rejected <==> verdict.Some? && verdict.value.status == Gemini.VerdictRejected
  {
    match verdict
    case None => Pending
    case Some(v) =>
      match v.status
      case VerdictVerified => Verified
      case VerdictRejected => Rejected
  }

  /** The record handleSubmit saves. */
  function SubmittedRecord(recordId: string, id: Gemini.ExtractedId, now: int, location: LocationData,
                           selfie: string, verdict: Option<Gemini.Verdict>): (r: AttendanceRecord)
    ensures r.id == recordId && r.studentId == id.studentId && r.studentName == id.name
    ensures r.timestamp == now && r.location == location && r.selfieUrl == selfie
    ensures r.verificationStatus == Pending <==> verdict.None?
    ensures r.verificationNote.Some? <==> verdict.Some?
  {
    AttendanceRecord(recordId, id.studentId, id.name, now, location, selfie, RecordStatus(verdict),
                     if verdict.Some? then Some(verdict.value.note) else None)
  }

  /** A JavaScript truthiness test on an optional string. */
  predicate Truthy(s: Option<string>) {
    s.Some? && s.value != ""
  }

  /** The Telegram message sent after a check-in, if any: the first stored student
      with the checked-in id must exist, a bot token must be set and the student
      must have a chat id. */
  function NotificationFor(settings: AppSettings, students: seq<StudentInfo>, id: Gemini.ExtractedId,
                           date: string, time: string): (r: Option<Notification.TelegramMessage>)
    ensures r.Some? <==>
      id.studentId in Lists.Keys(students, Storage.StudentKey) && Truthy(settings.telegramBotToken)
      && Truthy(students[Lists.IndexOfKey(students, Storage.StudentKey, id.studentId)].telegramChatId)
    ensures r.Some? ==>
      r.value.botToken == settings.telegramBotToken.value
      && r.value.text == Notification.FormatMessage(settings.notificationTemplate,
                           Notification.MessageData(id.name, settings.schoolName, date, time))
      && exists k :: Lists.IsFirstKey(students, Storage.StudentKey, id.studentId, k)
                     && Some(r.value.chatId) == students[k].telegramChatId
  {
    var index := Lists.IndexOfKey(students, Storage.StudentKey, id.studentId);
    if index != -1 && Truthy(settings.telegramBotToken) && Truthy(students[index].telegramChatId) then
      Some(Notification.TelegramMessage(
        settings.telegramBotToken.value, students[index].telegramChatId.value,
        Notification.FormatMessage(settings.notificationTemplate,
          Notification.MessageData(id.name, settings.schoolName, date, time))))
    else None
  }

  /** With the default settings (an empty bot token) no message is ever sent. */
  lemma DefaultSettingsSendNothing(students: seq<StudentInfo>, id: Gemini.ExtractedId, date: string, time: string)
    ensures NotificationFor(Storage.DefaultSettings(), students, id, date, time) == None
  {
  }

  /** With a bot token configured, the seeded student STU001 (the only one with a
      chat id) is notified at chat 12345, and STU002 is not. */
  lemma SeededStudentsNotification(settings: AppSettings, name: string, date: string, time: string)
    requires Truthy(settings.telegramBotToken)
    ensures var r := NotificationFor(settings, Storage.SeedStudents(), Gemini.ExtractedId("STU001", name, true), date, time);
            r.Some? && r.value.chatId == "12345"
    ensures NotificationFor(settings, Storage.SeedStudents(), Gemini.ExtractedId("STU002", name, true), date, time) == None
  {
    var s := Storage.SeedStudents();
    assert Storage.StudentKey(s[0]) == "STU001";
    assert Lists.IsFirstKey(s, Storage.StudentKey, "STU001", 0);
    assert Storage.StudentKey(s[1]) == "STU002";
    assert s[0].id != "STU002" by { assert s[0].id[5] != "STU002"[5]; }
    assert Lists.IsFirstKey(s, Storage.StudentKey, "STU002", 1);
  }

  // --- The session ---

  const AccessDeniedError := "Access denied. Please allow Camera, Microphone, and Location permissions in your browser settings to continue."
  const CardUnreadableError := "Could not read ID card. Please try again or use manual entry."
  /** The message of the scan handler's catch block: extraction never throws, so no
      transition ever sets it. */
  const AiServiceError := "AI Service error. Please use manual entry."
  const GeoUnsupportedError := "Geolocation is not supported by your browser"
  const LocationError := "Unable to retrieve your location. Please ensure GPS is enabled."

  /** What the geolocation request yields. */
  datatype GeoOutcome = GeoUnsupported | GeoFailed | GeoFix(fix: LocationData)

  /** A snapshot of the component's state. */
  datatype SessionState = SessionState(
    permissionsGranted: bool,
    step: nat,
    error: Option<string>,
    idData: Option<Gemini.ExtractedId>,
    selfieImage: Option<string>,
    location: Option<LocationData>,
    verificationResult: Option<Gemini.Verdict>,
    attendanceStatus: Option<AttendanceStatus>)

  /** What the flow guarantees at every step: no step before the permissions,
      a valid identity from step 2 on, selfie and verdict exactly from step 4 on,
      and a result exactly at step 5. */
  predicate ValidState(s: SessionState) {
    s.step <= 5
    && (!s.permissionsGranted ==> s.step == 0)
    && (s.step >= 2 ==> s.idData.Some? && s.idData.value.valid)
    && (s.selfieImage.Some? <==> s.step >= 4)
    && (s.verificationResult.Some? <==> s.step >= 4)
    && (s.location.Some? ==> s.step >= 4)
    && (s.attendanceStatus.Some? <==> s.step == 5)
    && (s.step == 5 ==> s.location.Some?)
  }

  class CheckInSession {
    var permissionsGranted: bool
    var step: nat
    var error: Option<string>
    var idData: Option<Gemini.ExtractedId>
    var selfieImage: Option<string>
    var location: Option<LocationData>
    var verificationResult: Option<Gemini.Verdict>
    var attendanceStatus: Option<AttendanceStatus>

    function State(): SessionState
      reads this
    {
      SessionState(permissionsGranted, step, error, idData, selfieImage, location, verificationResult, attendanceStatus)
    }

    ghost predicate Valid()
      reads this
    {
      ValidState(State())
    }

    /** A fresh session: permissions not granted, step 0, nothing captured. */
    constructor ()
      ensures Valid()
      ensures State() == SessionState(false, 0, None, None, None, None, None, None)
    {
      permissionsGranted := false;
      step := 0;
      error := None;
      idData := None;
      selfieImage := None;
      location := None;
      verificationResult := None;
      attendanceStatus := None;
    }

    /** requestPermissions, on the permission screen: granted only when the camera and
        microphone open and a location fix succeeds; otherwise the access error. */
    method RequestPermissions(mediaOk: bool, geoOk: bool)
      requires Valid() && !permissionsGranted
      modifies this
      ensures Valid()
      ensures mediaOk && geoOk ==> State() == old(State()).(permissionsGranted := true, error := None)
      ensures !(mediaOk && geoOk) ==> State() == old(State()).(error := Some(AccessDeniedError))
      ensures permissionsGranted <==> mediaOk && geoOk
    {
      error := None;
      if mediaOk && geoOk {
        permissionsGranted := true;
      } else {
        error := Some(AccessDeniedError);
      }
    }

    /** The "Scan ID Card" button of step 0. */
    method ChooseScan()
      requires Valid() && permissionsGranted && step == 0
      modifies this
      ensures Valid()
      ensures State() == old(State()).(step := 1)
    {
      step := 1;
    }

    /** handleIDScanCapture, on step 1: the extraction result always replaces idData;
        a valid one moves to step 2, an invalid one shows the unreadable-card error.
        A failed AI call arrives as the invalid fallback, so it shows that same error. */
    method HandleIDScanCapture(image: string, service: string -> Gemini.CallOutcome<Gemini.ExtractedId>)
      requires Valid() && permissionsGranted && step == 1
      modifies this
      ensures Valid()
      ensures var result := Gemini.ExtractDetailsFromIdCard(image, service);
              State() == if result.valid then old(State()).(error := None, idData := Some(result), step := 2)
                         else old(State()).(error := Some(CardUnreadableError), idData := Some(result))
      ensures !service(Gemini.StripDataUrlPrefix(image)).Returned? ==> error == Some(CardUnreadableError) && step == 1
      ensures error != Some(AiServiceError)
    {
      error := None;
      var result := Gemini.ExtractDetailsFromIdCard(image, service);
      idData := Some(result);
      if result.valid {
        step := 2;
      } else {
        error := Some(CardUnreadableError);
      }
    }

    /** handleManualSubmit, on step 0: nothing happens unless both fields are filled;
        otherwise the typed identity is taken as valid and the flow skips to the selfie. */
    method HandleManualSubmit(manualId: string, manualName: string)
      requires Valid() && permissionsGranted && step == 0
      modifies this
      ensures Valid()
      ensures manualId == "" || manualName == "" ==> State() == old(State())
      ensures manualId != "" && manualName != "" ==>
        State() == old(State()).(idData := Some(Gemini.ExtractedId(manualId, manualName, true)), step := 3)
    {
      if manualId == "" || manualName == "" {
        return;
      }
      idData := Some(Gemini.ExtractedId(manualId, manualName, true));
      step := 3;
    }

    /** handleConfirmID, on step 2. */
    method HandleConfirmID()
      requires Valid() && permissionsGranted && step == 2 && idData.Some?
      modifies this
      ensures Valid()
      ensures State() == old(State()).(step := 3)
    {
      step := 3;
    }

    /** The "Retake Scan" button of step 2. */
    method RetakeScan()
      requires Valid() && permissionsGranted && step == 2 && idData.Some?
      modifies this
      ensures Valid()
      ensures State() == old(State()).(step := 1)
    {
      step := 1;
    }

    /** The "Back" button of step 1. */
    method BackToMethod()
      requires Valid() && permissionsGranted && step == 1
      modifies this
      ensures Valid()
      ensures State() == old(State()).(step := 0)
    {
      step := 0;
    }

    /** handleSelfieCapture, on step 3: keeps the image and the (fail-open) verdict and
        always moves to step 4. */
    method HandleSelfieCapture(image: string, service: string -> Gemini.CallOutcome<Gemini.Verdict>)
      requires Valid() && permissionsGranted && step == 3
      modifies this
      ensures Valid()
      ensures State() == old(State()).(selfieImage := Some(image),
                                       verificationResult := Some(Gemini.VerifySelfie(image, service)), step := 4)
    {
      selfieImage := Some(image);
      var verify := Gemini.VerifySelfie(image, service);
      verificationResult := Some(verify);
      step := 4;
    }

    /** handleGetLocation, on step 4 while no fix is held: a fix is kept (an earlier
        error stays on screen), a failure shows its error. */
    method HandleGetLocation(outcome: GeoOutcome)
      requires Valid() && permissionsGranted && step == 4 && location.None?
      modifies this
      ensures Valid()
      ensures State() == match outcome
                         case GeoUnsupported => old(State()).(error := Some(GeoUnsupportedError))
                         case GeoFailed => old(State()).(error := Some(LocationError))
                         case GeoFix(fix) => old(State()).(location := Some(fix))
    {
      match outcome
      case GeoUnsupported =>
        error := Some(GeoUnsupportedError);
      case GeoFailed =>
        error := Some(LocationError);
      case GeoFix(fix) =>
        location := Some(fix);
    }

    /** handleSubmit, from step 4 (the button is enabled only while a fix is held).
        Unless the guard fails, it computes lateness against the configured start
        time, saves exactly one record, attempts the notification (which cannot
        fail the submission) and always reaches step 5.  `now` is `Date.now()`,
        `dayStart` the start of its local day, `recordId` a fresh uuid, `clockText`,
        `dateText` and `timeText` the locale renderings of `now`. */
    method HandleSubmit(store: Storage.LocalStorage, now: int, dayStart: int, recordId: string,
                        clockText: string, dateText: string, timeText: string)
      returns (sent: Option<Notification.TelegramMessage>)
      requires Valid() && permissionsGranted && step == 4 && location.Some?
      modifies this, store`records
      ensures Valid()
      ensures old(selfieImage) == Some("") ==>
        State() == old(State()) && store.records == old(store.records) && sent == None
      ensures old(selfieImage) != Some("") ==>
        var settings := store.GetSettings();
        var late := Lateness(now, dayStart, ParseStartTime(settings.startTime));
        && State() == old(State()).(step := 5,
             attendanceStatus := Some(AttendanceStatus(late.isLate, late.minutesLate, clockText)))
        && store.records == [SubmittedRecord(recordId, old(idData).value, now, old(location).value,
                                             old(selfieImage).value, old(verificationResult))] + old(store.records)
        && sent == NotificationFor(settings, store.students, old(idData).value, dateText, timeText)
    {
      if idData.None? || !Truthy(selfieImage) || location.None? {
        return None;
      }
      var settings := store.GetSettings();
      var late := Lateness(now, dayStart, ParseStartTime(settings.startTime));
      attendanceStatus := Some(AttendanceStatus(late.isLate, late.minutesLate, clockText));
      store.SaveAttendance(SubmittedRecord(recordId, idData.value, now, location.value,
                                           selfieImage.value, verificationResult));
      var students := store.students;
      sent := NotificationFor(settings, students, idData.value, dateText, timeText);
      step := 5;
    }
  }

  // --- End-to-end runs of the flow on a fresh store ---

  function SchoolFix(now: int): LocationData {
    LocationData(-6.175392, 106.827153, 10.0, now)
  }

  /** From step 0 with permissions granted: manual entry, the selfie and a location
      fix, which leave the session ready to submit. */
  method CompleteManualEntry(session: CheckInSession, id: string, name: string, selfie: string,
                             service: string -> Gemini.CallOutcome<Gemini.Verdict>, fix: LocationData)
    requires session.Valid() && session.permissionsGranted && session.step == 0
    requires id != "" && name != ""
    modifies session
    ensures session.Valid() && session.permissionsGranted && session.step == 4
    ensures session.idData == Some(Gemini.ExtractedId(id, name, true))
    ensures session.selfieImage == Some(selfie) && session.location == Some(fix)
    ensures session.verificationResult == Some(Gemini.VerifySelfie(selfie, service))
  {
    session.HandleManualSubmit(id, name);
    session.HandleSelfieCapture(selfie, service);
    session.HandleGetLocation(GeoFix(fix));
  }

  /** A fresh session taken through the permission screen and manual entry. */
  method ManualEntryToSubmit(id: string, name: string, selfie: string,
                             service: string -> Gemini.CallOutcome<Gemini.Verdict>, fix: LocationData)
    returns (session: CheckInSession)
    requires id != "" && name != ""
    ensures fresh(session) && session.Valid() && session.permissionsGranted && session.step == 4
    ensures session.idData == Some(Gemini.ExtractedId(id, name, true))
    ensures session.selfieImage == Some(selfie) && session.location == Some(fix)
    ensures session.verificationResult == Some(Gemini.VerifySelfie(selfie, service))
  {
    session := new CheckInSession();
    session.RequestPermissions(true, true);
    CompleteManualEntry(session, id, name, selfie, service, fix);
  }

  /** Manual entry, an accepted selfie, a fix, a submission on time: one verified
      record for the typed student and an on-time result. */
  method ManualCheckInOnTime(now: int, dayStart: int) returns (saved: seq<AttendanceRecord>, status: AttendanceStatus)
    requires now <= dayStart + 7 * MillisPerHour
    ensures |saved| == 1
    ensures saved[0].studentId == "STU001" && saved[0].studentName == "Jane Doe"
    ensures saved[0].timestamp == now && saved[0].verificationStatus == Verified
    ensures !status.isLate && status.minutesLate == 0
  {
    var store := new Storage.LocalStorage();
    var service := (_: string) => Gemini.Returned(Gemini.Verdict(Gemini.VerdictVerified, "Face clearly visible"));
    var session := ManualEntryToSubmit("STU001", "Jane Doe", "data:image/jpeg;base64,SELFIE", service, SchoolFix(now));
    assert Gemini.VerifySelfie("data:image/jpeg;base64,SELFIE", service).status == Gemini.VerdictVerified;
    assert store.GetSettings() == Storage.DefaultSettings();
    DefaultStartTimeIsSeven();
    var _ := session.HandleSubmit(store, now, dayStart, "rec-a", "06:55", "1/5/2024", "06:55:00");
    saved := store.records;
    status := session.attendanceStatus.value;
  }

  /** An unreadable card keeps the scan screen with its error; backing out to manual
      entry still ends in a saved record. */
  method UnreadableCardThenManual(now: int, dayStart: int)
    returns (errorAfterScan: Option<string>, stepAfterScan: nat, saved: seq<AttendanceRecord>)
    ensures errorAfterScan == Some(CardUnreadableError) && stepAfterScan == 1
    ensures |saved| == 1 && saved[0].studentId == "STU003"
  {
    var store := new Storage.LocalStorage();
    var session := new CheckInSession();
    session.RequestPermissions(true, true);
    session.ChooseScan();
    session.HandleIDScanCapture("data:image/png;base64,CARD",
      (_: string) => Gemini.Returned(Gemini.ExtractedId("", "", false)));
    errorAfterScan, stepAfterScan := session.error, session.step;
    session.BackToMethod();
    CompleteManualEntry(session, "STU003", "Budi Hartono", "SELFIE", (_: string) => Gemini.CallFailed, SchoolFix(now));
    var _ := session.HandleSubmit(store, now, dayStart, "rec-c", "07:00", "1/5/2024", "07:00:00");
    saved := store.records;
  }

  /** A selfie verification that fails is accepted: the saved record is verified and
      carries the fallback note. */
  method VerificationOutageAccepted(now: int, dayStart: int) returns (saved: seq<AttendanceRecord>)
    ensures |saved| == 1 && saved[0].verificationStatus == Verified
    ensures saved[0].verificationNote == Some(Gemini.VerificationFallback.note)
  {
    var store := new Storage.LocalStorage();
    var service := (_: string) => Gemini.CallFailed;
    var session := ManualEntryToSubmit("STU002", "Siti Aminah", "SELFIE", service, SchoolFix(now));
    assert Gemini.VerifySelfie("SELFIE", service) == Gemini.VerificationFallback;
    var _ := session.HandleSubmit(store, now, dayStart, "rec-d", "07:00", "1/5/2024", "07:00:00");
    saved := store.records;
  }

  /** A failed extraction call looks exactly like an unreadable card. */
  method ExtractionOutageLooksUnreadable() returns (error: Option<string>, step: nat)
    ensures error == Some(CardUnreadableError) && step == 1
  {
    var session := new CheckInSession();
    session.RequestPermissions(true, true);
    session.ChooseScan();
    session.HandleIDScanCapture("CARD", (_: string) => Gemini.CallFailed);
    error, step := session.error, session.step;
  }
}
