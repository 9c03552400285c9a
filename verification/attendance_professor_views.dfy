/**
 * attendance/professor/views.py: the second copy of the session engine.
 * `add_schedule`, `get_active_schedule` and `verify_qr_code` are the same as
 * in professor/views.py and are reused from `ProfessorViews`. What differs:
 * `activate_qr_scanning` writes a JSON payload onto the session record (and
 * overwrites it when the record already exists), and `process_qr_scan` reads
 * `student_name` without a `null` fallback and matches the name before it
 * looks for the active schedule.
 *
 * `now` is a parameter here as well; this copy takes it from
 * `timezone.now()`, so its weekday and time of day are those of UTC.
 */
module AttendanceProfessorViews {
  import opened Wrappers
  import opened Text
  import opened Clock
  import opened Scheduling
  import opened Models
  import opened Database
  import PV = ProfessorViews

  // ---------------------------------------------------------------------------
  // The QR payload
  // ---------------------------------------------------------------------------

  /** The dictionary built by `activate_qr_scanning`: exactly these four keys, all with string values. */
  datatype QrPayload = QrPayload(classId: string, className: string, professorId: string, timestamp: string)

  /** `{'classId': str(class_obj.id), 'className': class_obj.subject, 'professorId': str(request.user.id), 'timestamp': now.isoformat()}`. */
  function BuildPayload(classId: nat, subject: string, professor: nat, timestamp: string): (p: QrPayload)
    ensures PV.IdOf(p.classId) == Some(classId)
    ensures p.className == subject && p.timestamp == timestamp
  {
    PV.IdOfDecimal(classId);
    QrPayload(Decimal(classId), subject, Decimal(professor), timestamp)
  }

  const ClassIdKey: string := "{\"classId\": \""
  const ClassNameKey: string := "\", \"className\": \""
  const ProfessorIdKey: string := "\", \"professorId\": \""
  const TimestampKey: string := "\", \"timestamp\": \""
  const Closing: string := "\"}"

  /** `json.dumps(qr_data)` with the default separators, for values that need no escaping. */
  function Dumps(p: QrPayload): (r: string)
    ensures IsSubstring(p.timestamp, r)
  {
    var head := ClassIdKey + p.classId + ClassNameKey + p.className + ProfessorIdKey + p.professorId + TimestampKey;
    var r := head + p.timestamp + Closing;
    assert r[|head|..|head| + |p.timestamp|] == p.timestamp;
    assert OccursAt(p.timestamp, r, |head|);
    r
  }

  predicate NoQuote(s: string) {
    forall i :: 0 <= i < |s| ==> s[i] != '"'
  }

  /** The text after `prefix`, when `s` starts with it. */
  function Expect(prefix: string, s: string): (r: Option<string>)
    ensures r.Some? ==> s == prefix + r.value
  {
    if |prefix| <= |s| && s[..|prefix|] == prefix then
      assert s == s[..|prefix|] + s[|prefix|..];
      Some(s[|prefix|..])
    else None
  }

  lemma ExpectPrefix(prefix: string, rest: string)
    ensures Expect(prefix, prefix + rest) == Some(rest)
  {
    var s := prefix + rest;
    assert s[..|prefix|] == prefix;
    assert s[|prefix|..] == rest;
  }

  /** A string value up to its closing quote, and the text after that quote. */
  function TakeString(s: string): (r: Option<(string, string)>)
    ensures r.Some? ==> NoQuote(r.value.0) && s == r.value.0 + "\"" + r.value.1
  {
    if s == [] then None
    else if s[0] == '"' then
      assert s == [] + "\"" + s[1..];
      Some(([], s[1..]))
    else match TakeString(s[1..])
      case None => None
      case Some((c, rest)) =>
        assert s == [s[0]] + s[1..];
        Some(([s[0]] + c, rest))
  }

  /** A value without quotes is read back whole, whatever follows its closing quote. */
  lemma {:induction false} TakeStringOf(c: string, rest: string)
    requires NoQuote(c)
    ensures TakeString(c + "\"" + rest) == Some((c, rest))
  {
    var s := c + "\"" + rest;
    if c == [] {
      assert s[0] == '"' && s[1..] == rest;
    } else {
      assert s[0] == c[0] && s[1..] == c[1..] + "\"" + rest;
      TakeStringOf(c[1..], rest);
      assert [c[0]] + c[1..] == c;
    }
  }

  /** Reads a payload in the layout `Dumps` writes. */
  function ReadPayload(text: string): Option<QrPayload> {
    match Expect(ClassIdKey, text)
    case None => None
    case Some(t0) =>
      match TakeString(t0)
      case None => None
      case Some((cid, t1)) =>
        match Expect(ClassNameKey[1..], t1)
        case None => None
        case Some(t2) =>
          match TakeString(t2)
          case None => None
          case Some((name, t3)) =>
            match Expect(ProfessorIdKey[1..], t3)
            case None => None
            case Some(t4) =>
              match TakeString(t4)
              case None => None
              case Some((pid, t5)) =>
                match Expect(TimestampKey[1..], t5)
                case None => None
                case Some(t6) =>
                  match TakeString(t6)
                  case None => None
                  case Some((ts, t7)) => if t7 == "}" then Some(QrPayload(cid, name, pid, ts)) else None
  }

  /** The verifier reads back the four values the activation wrote, as long as none holds a quote. */
  lemma PayloadRoundTrip(p: QrPayload)
    requires NoQuote(p.classId) && NoQuote(p.className) && NoQuote(p.professorId) && NoQuote(p.timestamp)
    ensures ReadPayload(Dumps(p)) == Some(p)
  {
    var t7 := "}";
    var t6 := p.timestamp + "\"" + t7;
    var t5 := TimestampKey[1..] + t6;
    var t4 := p.professorId + "\"" + t5;
    var t3 := ProfessorIdKey[1..] + t4;
    var t2 := p.className + "\"" + t3;
    var t1 := ClassNameKey[1..] + t2;
    var t0 := p.classId + "\"" + t1;
    assert Dumps(p) == ClassIdKey + t0;
    ExpectPrefix(ClassIdKey, t0);
    TakeStringOf(p.classId, t1);
    ExpectPrefix(ClassNameKey[1..], t2);
    TakeStringOf(p.className, t3);
    ExpectPrefix(ProfessorIdKey[1..], t4);
    TakeStringOf(p.professorId, t5);
    ExpectPrefix(TimestampKey[1..], t6);
    TakeStringOf(p.timestamp, t7);
  }

  // ---------------------------------------------------------------------------
  // activate_qr_scanning
  // ---------------------------------------------------------------------------

  /** `ServerError`: `get_or_create` raised `MultipleObjectsReturned`, which this view does not catch. */
  datatype ActivateOutcome =
    | NotOwner | NoSchedules | NotScheduledNow | ServerError
    | Activated(recordId: nat, scheduleTime: string, payload: QrPayload)

  /** What `activate_qr_scanning` answers; `now` is UTC and `timestamp` is `now.isoformat()`. */
  function ActivateAnswer(classes: seq<ClassRow>, schedules: seq<ScheduleRow>, records: seq<Record>,
                          caller: nat, classId: nat, now: DateTime, timestamp: string): ActivateOutcome {
    if !PV.OwnedBy(classes, caller, classId) then NotOwner
    else if SchedulesOf(schedules, classId) == [] then NoSchedules
    else match PV.ActiveSlot(schedules, classId, now)
      case None => NotScheduledNow
      case Some(s) =>
        if Ambiguous(records, classId, now.date, Label(s)) then ServerError
        else Activated(SessionId(records, classId, now.date, Label(s)), Label(s),
                       BuildPayload(classId, classes[classId].subject, caller, timestamp))
  }

  /**
   * The record table after `get_or_create(date__date=date, defaults={'date':
   * stamp, 'qr_code_data': text})`, then the overwrite of the payload when
   * the record existed. This copy looks up `now.date()`, the UTC date, while
   * the stored `now` is read back in Manila time: `date` is `now.date` and
   * `stamp` is `Manila(now)`.
   */
  function StoredAfterActivation(records: seq<Record>, classId: nat, date: nat, stamp: DateTime,
                                 scheduleTime: string, text: string): seq<Record> {
    match SessionOf(records, classId, date, scheduleTime)
    case None => AfterGetOrCreate(records, classId, date, stamp, scheduleTime, Some(text))
    case Some(k) => records[k := records[k].(qrData := Some(text))]
  }

  /**
   * After activation the session's record holds the new payload, whether it
   * was created or found, and no other record changes; the lookup finds it
   * again when it was found, or when it was created on the looked-up day.
   */
  lemma ActivationOverwritesPayload(records: seq<Record>, classId: nat, date: nat, stamp: DateTime, scheduleTime: string, text: string)
    ensures var stored := StoredAfterActivation(records, classId, date, stamp, scheduleTime, text);
            var id := SessionId(records, classId, date, scheduleTime);
            |stored| == (if id == |records| then |records| + 1 else |records|) &&
            stored[id].classId == classId && stored[id].scheduleTime == scheduleTime && stored[id].qrData == Some(text) &&
            forall i :: 0 <= i < |records| && i != id ==> stored[i] == records[i]
    ensures var stored := StoredAfterActivation(records, classId, date, stamp, scheduleTime, text);
            var id := SessionId(records, classId, date, scheduleTime);
            id < |records| || stamp.date == date ==>
              SessionOf(stored, classId, date, scheduleTime) == Some(id) &&
              (!Ambiguous(records, classId, date, scheduleTime) ==> !Ambiguous(stored, classId, date, scheduleTime))
  {
    var id := SessionId(records, classId, date, scheduleTime);
    if id == |records| {
      if stamp.date == date {
        SessionAfterGetOrCreate(records, classId, date, stamp, scheduleTime, Some(text));
      }
    } else {
      SessionOfUpdate(records, classId, date, scheduleTime, id, text);
    }
  }

  /** Changing the payload of the session's own record leaves the session lookup where it was. */
  lemma SessionOfUpdate(records: seq<Record>, classId: nat, date: nat, scheduleTime: string, k: nat, text: string)
    requires SessionOf(records, classId, date, scheduleTime) == Some(k)
    ensures SessionOf(records[k := records[k].(qrData := Some(text))], classId, date, scheduleTime) == Some(k)
    ensures Ambiguous(records[k := records[k].(qrData := Some(text))], classId, date, scheduleTime) ==
            Ambiguous(records, classId, date, scheduleTime)
  {
    var stored := records[k := records[k].(qrData := Some(text))];
    assert SameSession(stored[k], classId, date, scheduleTime);
    assert forall j :: 0 <= j < k ==> stored[j] == records[j];
    assert forall j :: 0 <= j < |records| ==>
      (SameSession(stored[j], classId, date, scheduleTime) <==> SameSession(records[j], classId, date, scheduleTime));
  }

  /**
   * Activating again in the same window on the same UTC day reuses the
   * record and only replaces its payload, provided the first activation
   * found its record or created it before 16:00 UTC (so dated that same day
   * in Manila).
   */
  lemma ReactivationReusesRecord(classes: seq<ClassRow>, schedules: seq<ScheduleRow>, records: seq<Record>,
                                 caller: nat, classId: nat, now: DateTime, later: DateTime, t1: string, t2: string)
    requires later.date == now.date && PV.ActiveSlot(schedules, classId, later) == PV.ActiveSlot(schedules, classId, now)
    requires ActivateAnswer(classes, schedules, records, caller, classId, now, t1).Activated?
    requires ActivateAnswer(classes, schedules, records, caller, classId, now, t1).recordId < |records| || now.time.hour < 16
    ensures var first := ActivateAnswer(classes, schedules, records, caller, classId, now, t1);
            var stored := StoredAfterActivation(records, classId, now.date, Manila(now), first.scheduleTime, Dumps(first.payload));
            var second := ActivateAnswer(classes, schedules, stored, caller, classId, later, t2);
            second.Activated? && second.recordId == first.recordId &&
            StoredAfterActivation(stored, classId, later.date, Manila(later), second.scheduleTime, Dumps(second.payload)) ==
              stored[first.recordId := stored[first.recordId].(qrData := Some(Dumps(second.payload)))]
  {
    var first := ActivateAnswer(classes, schedules, records, caller, classId, now, t1);
    ManilaDateAhead(now);
    ActivationOverwritesPayload(records, classId, now.date, Manila(now), first.scheduleTime, Dumps(first.payload));
  }

  /**
   * From 16:00 UTC the record a first activation creates is dated the next
   * day in Manila, so a second activation in the same window misses it and
   * creates another; the two then answer the next day's lookup together.
   */
  lemma LateReactivationDuplicates(classes: seq<ClassRow>, schedules: seq<ScheduleRow>, records: seq<Record>,
                                   caller: nat, classId: nat, now: DateTime, later: DateTime, t1: string, t2: string)
    requires later.date == now.date && PV.ActiveSlot(schedules, classId, later) == PV.ActiveSlot(schedules, classId, now)
    requires now.time.hour >= 16 && later.time.hour >= 16
    requires ActivateAnswer(classes, schedules, records, caller, classId, now, t1).Activated?
    requires ActivateAnswer(classes, schedules, records, caller, classId, now, t1).recordId == |records|
    ensures var first := ActivateAnswer(classes, schedules, records, caller, classId, now, t1);
            var stored := StoredAfterActivation(records, classId, now.date, Manila(now), first.scheduleTime, Dumps(first.payload));
            var second := ActivateAnswer(classes, schedules, stored, caller, classId, later, t2);
            var stored2 := StoredAfterActivation(stored, classId, later.date, Manila(later), second.scheduleTime, Dumps(second.payload));
            second.Activated? && second.recordId == |records| + 1 &&
            |stored2| == |records| + 2 && Ambiguous(stored2, classId, Manila(now).date, first.scheduleTime)
  {
    var first := ActivateAnswer(classes, schedules, records, caller, classId, now, t1);
    var sessionLabel := first.scheduleTime;
    ManilaDateAhead(now);
    ManilaDateAhead(later);
    var stored := StoredAfterActivation(records, classId, now.date, Manila(now), sessionLabel, Dumps(first.payload));
    assert forall j :: 0 <= j < |records| ==> stored[j] == records[j];
    assert !SameSession(stored[|records|], classId, now.date, sessionLabel);
    assert SessionOf(stored, classId, now.date, sessionLabel).None?;
    var second := ActivateAnswer(classes, schedules, stored, caller, classId, later, t2);
    assert second.Activated?;
    MisdatedGetOrCreateRepeats(records, classId, now.date, Manila(now), Manila(later), sessionLabel,
                               Some(Dumps(first.payload)), Some(Dumps(second.payload)));
  }

  /**
   * An input that meets `LateReactivationDuplicates`: a class of professor 1
   * meeting on Mondays 17:00-18:00, an empty records table, and activations
   * at 17:30 and 17:40 UTC on Monday 1970-01-05 (day 4), which is already
   * Tuesday in Manila.
   */
  lemma LateReactivationExample()
    ensures var classes := [ClassRow(1, "Math", None, None, None, "ABC123")];
            var slot := Schedule(Monday, Time(17, 0), Time(18, 0));
            var schedules := [ScheduleRow(0, slot)];
            var now := DateTime(4, ClockTime(17, 30, 0, 0));
            var later := DateTime(4, ClockTime(17, 40, 0, 0));
            PV.ActiveSlot(schedules, 0, later) == PV.ActiveSlot(schedules, 0, now) &&
            ActivateAnswer(classes, schedules, [], 1, 0, now, "t1") == Activated(0, Label(slot), BuildPayload(0, "Math", 1, "t1")) &&
            Manila(now).date == 5
  {
    MondayEveningWindow(ClockTime(17, 30, 0, 0));
    MondayEveningWindow(ClockTime(17, 40, 0, 0));
  }

  lemma MondayEveningWindow(t: ClockTime)
    requires t.hour == 17
    ensures var slot := Schedule(Monday, Time(17, 0), Time(18, 0));
            PV.ActiveSlot([ScheduleRow(0, slot)], 0, DateTime(4, t)) == Some(slot)
  {
    var slot := Schedule(Monday, Time(17, 0), Time(18, 0));
    assert SchedulesOf([ScheduleRow(0, slot)], 0) == [slot];
    assert Within(slot, Weekday(4), t);
  }

  /**
   * The lookup by the Manila date the record is stored under, as
   * professor/views.py does: any second activation on the same Manila day
   * finds the record the first one left and only replaces its payload.
   */
  lemma ManilaLookupReusesRecord(records: seq<Record>, classId: nat, now: DateTime, later: DateTime,
                                 scheduleTime: string, t1: string, t2: string)
    requires Manila(later).date == Manila(now).date
    requires !Ambiguous(records, classId, Manila(now).date, scheduleTime)
    ensures var day := Manila(now).date;
            var stored := StoredAfterActivation(records, classId, day, Manila(now), scheduleTime, t1);
            var id := SessionId(records, classId, day, scheduleTime);
            !Ambiguous(stored, classId, day, scheduleTime) && SessionId(stored, classId, day, scheduleTime) == id &&
            StoredAfterActivation(stored, classId, Manila(later).date, Manila(later), scheduleTime, t2) ==
              stored[id := stored[id].(qrData := Some(t2))]
  {
    ActivationOverwritesPayload(records, classId, Manila(now).date, Manila(now), scheduleTime, t1);
  }

  /** `activate_qr_scanning`: find the active window in UTC, then store the payload on the session's record. */
  method ActivateQrScanning(db: Db, caller: nat, classId: nat, now: DateTime, timestamp: string) returns (out: ActivateOutcome)
    requires db.Valid()
    modifies db`records
    ensures db.Valid()
    ensures out == ActivateAnswer(old(db.classes), old(db.schedules), old(db.records), caller, classId, now, timestamp)
    ensures db.records == if out.Activated?
                          then StoredAfterActivation(old(db.records), classId, now.date, Manila(now), out.scheduleTime, Dumps(out.payload))
                          else old(db.records)
  {
    if !(classId < |db.classes| && db.classes[classId].professor == caller) {
      return NotOwner;
    }
    var ss := db.ClassSchedules(classId);
    if ss == [] {
      return NoSchedules;
    }
    var active := GetActiveSchedule(ss, Weekday(now.date), now.time);
    if active.None? {
      return NotScheduledNow;
    }
    var payload := BuildPayload(classId, db.classes[classId].subject, caller, timestamp);
    var sessionLabel := Label(active.value);
    var text := Dumps(payload);
    var ledger := db.GetOrCreateRecord(classId, now.date, Manila(now), sessionLabel, Some(text));
    if ledger.Clash? {
      return ServerError;
    }
    if ledger.Found? {
      db.SetPayload(ledger.id, text);
    }
    return Activated(ledger.id, sessionLabel, payload);
  }

  /** A token read from a freshly activated session finds a session, unless it is over two hours old. */
  lemma ActivationThenVerifyFindsSession(classes: seq<ClassRow>, schedules: seq<ScheduleRow>, records: seq<Record>,
                                         entries: seq<Entry>, caller: nat, student: nat, classId: nat, now: DateTime,
                                         timestamp: string, age: int)
    requires ActivateAnswer(classes, schedules, records, caller, classId, now, timestamp).Activated?
    requires timestamp != "" && age <= PV.MaxTokenAge
    ensures var out := ActivateAnswer(classes, schedules, records, caller, classId, now, timestamp);
            var stored := StoredAfterActivation(records, classId, now.date, Manila(now), out.scheduleTime, Dumps(out.payload));
            var v := PV.VerifyAnswer(classes, stored, entries, student, Some(out.payload.classId), Some(timestamp), Some(age));
            v.Attended? || v.AlreadyAttended?
  {
    var out := ActivateAnswer(classes, schedules, records, caller, classId, now, timestamp);
    var stored := StoredAfterActivation(records, classId, now.date, Manila(now), out.scheduleTime, Dumps(out.payload));
    ActivationOverwritesPayload(records, classId, now.date, Manila(now), out.scheduleTime, Dumps(out.payload));
    var id := SessionId(records, classId, now.date, out.scheduleTime);
    assert PV.Carries(stored[id], classId, timestamp);
  }

  // ---------------------------------------------------------------------------
  // process_qr_scan
  // ---------------------------------------------------------------------------

  /** `data.get('student_name', '').strip()`: `None` when the member is `null` and `.strip()` raises. */
  function ScanName(f: PV.NameField): (r: Option<string>)
    ensures r.None? <==> f.Null?
    ensures r.Some? ==> Trimmed(r.value, PyStrip)
    ensures f.Given? ==> r == Some(PV.ScannedName(f))
  {
    match f
    case Null => None
    case Absent => Some("")
    case Given(t) => Some(PV.ScannedName(f))
  }

  /** What this copy of `process_qr_scan` answers: the name is matched before the schedule is looked at. */
  function ScanAnswer(classes: seq<ClassRow>, schedules: seq<ScheduleRow>, records: seq<Record>, entries: seq<Entry>,
                      enrollments: seq<Enrollment>, caller: nat, classId: nat, field: PV.NameField, now: DateTime): PV.ScanOutcome {
    match ScanName(field)
    case None => PV.MalformedName
    case Some(name) =>
      if name == "" then PV.MissingName
      else if !PV.OwnedBy(classes, caller, classId) then PV.UnknownClass
      else ScanOwned(schedules, records, entries, enrollments, classId, name, now)
  }

  /** The answer once the name is non-blank and the class is the caller's: student first, then window. */
  function ScanOwned(schedules: seq<ScheduleRow>, records: seq<Record>, entries: seq<Entry>,
                     enrollments: seq<Enrollment>, classId: nat, name: string, now: DateTime): PV.ScanOutcome {
    var students := StudentsOf(enrollments, classId);
    if PV.FirstMatch(students, name).None? then PV.StudentNotFound(name)
    else match PV.ActiveSlot(schedules, classId, now)
      case None => PV.NoActiveSchedule
      case Some(s) =>
        if Ambiguous(records, classId, now.date, Label(s)) then PV.LedgerClash
        else PV.MatchAnswer(entries, students, name, SessionId(records, classId, now.date, Label(s)))
  }

  /** Whether this copy reached `get_or_create`: only once a student matched inside a window. */
  predicate Ledgered(out: PV.ScanOutcome) {
    out.LedgerClash? || out.AlreadyMarked? || out.Recorded?
  }

  /** The part after the student and the window are known: the ledger, the duplicate check and the entry. */
  method MarkStudent(db: Db, classId: nat, slot: Schedule, student: User, now: DateTime) returns (out: PV.ScanOutcome)
    requires db.Valid() && classId < |db.classes|
    modifies db`records, db`entries
    ensures db.Valid()
    ensures var rid := SessionId(old(db.records), classId, now.date, Label(slot));
            out == if Ambiguous(old(db.records), classId, now.date, Label(slot)) then PV.LedgerClash
                   else if Marked(old(db.entries), rid, student.id) then PV.AlreadyMarked(student)
                   else PV.Recorded(student, rid)
    ensures db.records == AfterGetOrCreate(old(db.records), classId, now.date, Manila(now), Label(slot), None)
    ensures db.entries == if out.Recorded? then old(db.entries) + [Entry(out.recordId, student.id, Manila(now))] else old(db.entries)
  {
    var ledger := db.GetOrCreateRecord(classId, now.date, Manila(now), Label(slot), None);
    if ledger.Clash? {
      return PV.LedgerClash;
    }
    var rid := ledger.id;
    var dup := db.HasEntry(rid, student.id);
    if dup {
      return PV.AlreadyMarked(student);
    }
    db.CreateEntry(rid, student.id, Manila(now));
    return PV.Recorded(student, rid);
  }

  /** The steps of `process_qr_scan` after the class check: find the student, then the window, then mark. */
  method ScanOwnedClass(db: Db, classId: nat, name: string, now: DateTime) returns (out: PV.ScanOutcome)
    requires db.Valid() && classId < |db.classes|
    modifies db`records, db`entries
    ensures db.Valid()
    ensures out == ScanOwned(db.schedules, old(db.records), old(db.entries), db.enrollments, classId, name, now)
    ensures db.records == if Ledgered(out)
                          then AfterGetOrCreate(old(db.records), classId, now.date, Manila(now), Label(PV.ActiveSlot(db.schedules, classId, now).value), None)
                          else old(db.records)
    ensures db.entries == if out.Recorded? then old(db.entries) + [Entry(out.recordId, out.student.id, Manila(now))] else old(db.entries)
  {
    var students := db.ClassStudents(classId);
    var k := PV.FindStudentByName(students, name);
    PV.FirstMatchUnique(students, name, k);
    if k.None? {
      return PV.StudentNotFound(name);
    }
    var active := GetActiveSchedule(db.ClassSchedules(classId), Weekday(now.date), now.time);
    if active.None? {
      return PV.NoActiveSchedule;
    }
    out := MarkStudent(db, classId, active.value, students[k.value], now);
  }

  /** `process_qr_scan` on a POST, in this copy's order: name, class, student, window, ledger, entry. */
  method ProcessQrScan(db: Db, caller: nat, classId: nat, field: PV.NameField, now: DateTime) returns (out: PV.ScanOutcome)
    requires db.Valid()
    modifies db`records, db`entries
    ensures db.Valid()
    ensures out == ScanAnswer(old(db.classes), old(db.schedules), old(db.records), old(db.entries), old(db.enrollments),
                              caller, classId, field, now)
    ensures db.records == if Ledgered(out)
                          then AfterGetOrCreate(old(db.records), classId, now.date, Manila(now), Label(PV.ActiveSlot(db.schedules, classId, now).value), None)
                          else old(db.records)
    ensures db.entries == if out.Recorded? then old(db.entries) + [Entry(out.recordId, out.student.id, Manila(now))] else old(db.entries)
  {
    if field.Null? {
      return PV.MalformedName;
    }
    var name := PV.ScannedName(field);
    if name == "" {
      return PV.MissingName;
    }
    if !(classId < |db.classes| && db.classes[classId].professor == caller) {
      return PV.UnknownClass;
    }
    out := ScanOwnedClass(db, classId, name, now);
  }

  // ---------------------------------------------------------------------------
  // The two copies of process_qr_scan side by side
  // ---------------------------------------------------------------------------

  /**
   * Inside a class window, for a given name and the same clock reading, the
   * two copies answer alike, except that on an ambiguous session lookup
   * professor/views.py fails before it matches the name.
   */
  lemma CopiesAgreeInWindow(classes: seq<ClassRow>, schedules: seq<ScheduleRow>, records: seq<Record>, entries: seq<Entry>,
                            enrollments: seq<Enrollment>, caller: nat, classId: nat, text: string, now: DateTime)
    requires PV.ActiveSlot(schedules, classId, now).Some?
    ensures var here := ScanAnswer(classes, schedules, records, entries, enrollments, caller, classId, PV.Given(text), now);
            var there := PV.ScanAnswer(classes, schedules, records, entries, enrollments, caller, classId, PV.Given(text), now);
            here == there ||
            (here.StudentNotFound? && there.LedgerClash? &&
             Ambiguous(records, classId, now.date, Label(PV.ActiveSlot(schedules, classId, now).value)))
  {
    var name := PV.ScannedName(PV.Given(text));
    var students := StudentsOf(enrollments, classId);
    if PV.FirstMatch(students, name).None? {
      var rid := SessionId(records, classId, now.date, Label(PV.ActiveSlot(schedules, classId, now).value));
      assert PV.MatchAnswer(entries, students, name, rid) == PV.StudentNotFound(name);
    }
  }

  /**
   * From 16:00 UTC a scan that created the session's record leaves it dated
   * the next Manila day, so scanning the same student again in the same
   * window creates another record and marks them a second time.
   */
  lemma LateRescanRecordsAgain(schedules: seq<ScheduleRow>, records: seq<Record>, entries: seq<Entry>,
                               enrollments: seq<Enrollment>, classId: nat, name: string, now: DateTime, later: DateTime)
    requires later.date == now.date && PV.ActiveSlot(schedules, classId, later) == PV.ActiveSlot(schedules, classId, now)
    requires now.time.hour >= 16
    requires forall i :: 0 <= i < |entries| ==> entries[i].recordId < |records|
    requires ScanOwned(schedules, records, entries, enrollments, classId, name, now).Recorded?
    requires ScanOwned(schedules, records, entries, enrollments, classId, name, now).recordId == |records|
    ensures var first := ScanOwned(schedules, records, entries, enrollments, classId, name, now);
            var records' := AfterGetOrCreate(records, classId, now.date, Manila(now), Label(PV.ActiveSlot(schedules, classId, now).value), None);
            var entries' := entries + [Entry(first.recordId, first.student.id, Manila(now))];
            ScanOwned(schedules, records', entries', enrollments, classId, name, later) == PV.Recorded(first.student, |records| + 1)
  {
    var sessionLabel := Label(PV.ActiveSlot(schedules, classId, now).value);
    var records' := AfterGetOrCreate(records, classId, now.date, Manila(now), sessionLabel, None);
    ManilaDateAhead(now);
    assert forall j :: 0 <= j < |records| ==> records'[j] == records[j];
    assert !SameSession(records'[|records|], classId, now.date, sessionLabel);
    assert SessionOf(records', classId, now.date, sessionLabel).None?;
    assert !Ambiguous(records', classId, now.date, sessionLabel);
    assert SessionId(records', classId, now.date, sessionLabel) == |records| + 1;
    var first := ScanOwned(schedules, records, entries, enrollments, classId, name, now);
    var entries' := entries + [Entry(first.recordId, first.student.id, Manila(now))];
    assert !Marked(entries', |records| + 1, first.student.id);
    var students := StudentsOf(enrollments, classId);
    assert first == PV.MatchAnswer(entries, students, name, |records|);
  }

  /** Outside every window an unknown name is reported as unknown here, but as "no active schedule" by professor/views.py. */
  lemma UnknownNameOutsideWindow(classes: seq<ClassRow>, schedules: seq<ScheduleRow>, records: seq<Record>, entries: seq<Entry>,
                                 enrollments: seq<Enrollment>, caller: nat, classId: nat, text: string, now: DateTime)
    requires PV.OwnedBy(classes, caller, classId) && PV.ScannedName(PV.Given(text)) != ""
    requires PV.ActiveSlot(schedules, classId, now).None?
    requires forall i :: 0 <= i < |StudentsOf(enrollments, classId)| ==>
               !PV.NameMatches(StudentsOf(enrollments, classId)[i], PV.ScannedName(PV.Given(text)))
    ensures ScanAnswer(classes, schedules, records, entries, enrollments, caller, classId, PV.Given(text), now) ==
            PV.StudentNotFound(PV.ScannedName(PV.Given(text)))
    ensures PV.ScanAnswer(classes, schedules, records, entries, enrollments, caller, classId, PV.Given(text), now) ==
            PV.NoActiveSchedule
  {
    PV.FirstMatchIsFirst(StudentsOf(enrollments, classId), PV.ScannedName(PV.Given(text)));
  }

  /** A `null` name is a server error here, but a plain "no name" answer in professor/views.py. */
  lemma NullNameDiffers(classes: seq<ClassRow>, schedules: seq<ScheduleRow>, records: seq<Record>, entries: seq<Entry>,
                        enrollments: seq<Enrollment>, caller: nat, classId: nat, now: DateTime)
    ensures ScanAnswer(classes, schedules, records, entries, enrollments, caller, classId, PV.Null, now) == PV.MalformedName
    ensures PV.ScanAnswer(classes, schedules, records, entries, enrollments, caller, classId, PV.Null, now) == PV.MissingName
  {
  }
}
