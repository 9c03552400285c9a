/**
 * professor/views.py: the conflict check of `add_schedule`, the session
 * ledger of `activate_qr_scanning`, the scan recorder `process_qr_scan` and
 * the token check `verify_qr_code`, each as a method on the database and a
 * function giving its answer from the tables it reads.
 *
 * The current instant is a parameter (`now`, already in Manila local time,
 * as `timezone.localtime` gives it); its weekday is `Weekday(now.date)`, and
 * the records these views create are dated `now`, so the day they look up is
 * the day they store. Messages, redirects and JSON bodies become the
 * constructors of an outcome datatype; an uncaught exception is a server
 * error.
 */
module ProfessorViews {
  import opened Wrappers
  import opened Text
  import opened Clock
  import opened Scheduling
  import opened Forms
  import opened Models
  import opened Database

  predicate OwnedBy(classes: seq<ClassRow>, caller: nat, classId: nat) {
    classId < |classes| && classes[classId].professor == caller
  }

  // ---------------------------------------------------------------------------
  // create_class and edit_class
  // ---------------------------------------------------------------------------

  datatype CreateOutcome = CreateInvalid(error: ClassFormError) | CodesExhausted | Created(id: nat)

  /**
   * `create_class` on a POST: a valid form becomes a class of the caller's,
   * and `save()` gives it a fresh code drawn from `picks`.
   */
  method CreateClass(db: Db, caller: nat, input: ClassInput, picks: seq<Pick>) returns (out: CreateOutcome)
    requires db.Valid()
    modifies db`classes
    ensures db.Valid()
    ensures CleanClass(input).Err? <==> out.CreateInvalid?
    ensures out.CreateInvalid? ==> out.error == CleanClass(input).error
    ensures out.CodesExhausted? <==> CleanClass(input).Ok? && FirstFreeDraw(old(db.Codes()), picks).None?
    ensures !out.Created? ==> db.classes == old(db.classes)
    ensures out.Created? ==>
      var f := CleanClass(input).value;
      var code := FirstFreeDraw(old(db.Codes()), picks).value;
      out.id == |old(db.classes)| &&
      db.classes == old(db.classes) + [ClassRow(caller, f.subject, f.section, f.room, Some(f.description), code)]
  {
    var form := CleanClass(input);
    if form.Err? {
      return CreateInvalid(form.error);
    }
    var f := form.value;
    var saved := Save(ClassRow(caller, f.subject, f.section, f.room, Some(f.description), ""), db.Codes(), picks);
    if saved.None? {
      return CodesExhausted;
    }
    var id := db.InsertClass(saved.value);
    return Created(id);
  }

  datatype EditOutcome = EditForeign | EditInvalid(error: ClassFormError) | Edited

  /** `edit_class` on a POST: the caller's class takes the form's fields and keeps its code. */
  method EditClass(db: Db, caller: nat, classId: nat, input: ClassInput) returns (out: EditOutcome)
    requires db.Valid()
    modifies db`classes
    ensures db.Valid()
    ensures out.EditForeign? <==> !OwnedBy(old(db.classes), caller, classId)
    ensures out.Edited? <==> OwnedBy(old(db.classes), caller, classId) && CleanClass(input).Ok?
    ensures !out.Edited? ==> db.classes == old(db.classes)
    ensures out.Edited? ==>
      var f := CleanClass(input).value;
      db.classes == old(db.classes)[classId := ClassRow(caller, f.subject, f.section, f.room, Some(f.description), old(db.classes)[classId].code)]
  {
    if !(classId < |db.classes| && db.classes[classId].professor == caller) {
      return EditForeign;
    }
    var form := CleanClass(input);
    if form.Err? {
      return EditInvalid(form.error);
    }
    var f := form.value;
    var saved := Save(ClassRow(caller, f.subject, f.section, f.room, Some(f.description), db.classes[classId].code), db.Codes(), []);
    db.UpdateClass(classId, saved.value);
    return Edited;
  }

  // ---------------------------------------------------------------------------
  // add_schedule
  // ---------------------------------------------------------------------------

  datatype AddOutcome = ForeignClass | FormInvalid(error: ScheduleFormError) | Conflict | Added(slot: Schedule)

  /** What `add_schedule` does with a POSTed form, given the schedule table. */
  function AddAnswer(classes: seq<ClassRow>, schedules: seq<ScheduleRow>, caller: nat, classId: nat, data: ScheduleData): AddOutcome {
    if !OwnedBy(classes, caller, classId) then ForeignClass
    else match ValidateSchedule(data)
      case Err(e) => FormInvalid(e)
      case Ok(s) => if ConflictsWithSome(SchedulesOf(schedules, classId), s) then Conflict else Added(s)
  }

  /** A schedule is saved only when it overlaps none of its class's schedules on that day. */
  lemma AddedOverlapsNothing(classes: seq<ClassRow>, schedules: seq<ScheduleRow>, caller: nat, classId: nat, data: ScheduleData)
    requires SchedulesValid(schedules, |classes|)
    requires AddAnswer(classes, schedules, caller, classId, data).Added?
    ensures var s := AddAnswer(classes, schedules, caller, classId, data).slot;
            ValidRange(s) && s == ValidateSchedule(data).value &&
            forall i :: 0 <= i < |schedules| && schedules[i].classId == classId ==> !SameDayOverlap(s, schedules[i].slot)
  {
    var s := ValidateSchedule(data).value;
    ConflictsOfClass(schedules, classId, s);
    forall i | 0 <= i < |schedules| && schedules[i].classId == classId
      ensures !SameDayOverlap(s, schedules[i].slot)
    {
      var t := schedules[i].slot;
      assert !Conflicts(s, t);
      ThreeClauseIsOverlap(s.start.Minutes(), s.end.Minutes(), t.start.Minutes(), t.end.Minutes());
    }
  }

  lemma {:induction false} SchedulesOfAppend(a: seq<ScheduleRow>, b: seq<ScheduleRow>, classId: nat)
    ensures SchedulesOf(a + b, classId) == SchedulesOf(a, classId) + SchedulesOf(b, classId)
  {
    if a == [] {
      assert a + b == b;
    } else {
      var head: seq<Schedule> := if a[0].classId == classId then [a[0].slot] else [];
      assert (a + b)[0] == a[0];
      assert (a + b)[1..] == a[1..] + b;
      calc {
        SchedulesOf(a + b, classId);
        head + SchedulesOf(a[1..] + b, classId);
        { SchedulesOfAppend(a[1..], b, classId); }
        head + (SchedulesOf(a[1..], classId) + SchedulesOf(b, classId));
        (head + SchedulesOf(a[1..], classId)) + SchedulesOf(b, classId);
        SchedulesOf(a, classId) + SchedulesOf(b, classId);
      }
    }
  }

  /** Rows of other classes, or of the class on other days, never change the verdict. */
  lemma AddIgnoresOtherDays(classes: seq<ClassRow>, schedules: seq<ScheduleRow>, others: seq<ScheduleRow>,
                            caller: nat, classId: nat, data: ScheduleData)
    requires ValidateSchedule(data).Ok?
    requires forall i :: 0 <= i < |others| ==> others[i].classId != classId || others[i].slot.day != ValidateSchedule(data).value.day
    ensures AddAnswer(classes, schedules + others, caller, classId, data) == AddAnswer(classes, schedules, caller, classId, data)
  {
    var s := ValidateSchedule(data).value;
    SchedulesOfAppend(schedules, others, classId);
    var extra := SchedulesOf(others, classId);
    forall j | 0 <= j < |extra|
      ensures extra[j].day != s.day
    {
      SchedulesOfMembers(others, classId, extra[j]);
    }
    OtherDaysIgnored(SchedulesOf(schedules, classId), extra, s);
  }

  /** `add_schedule` on a POST. */
  method AddSchedule(db: Db, caller: nat, classId: nat, data: ScheduleData) returns (out: AddOutcome)
    requires db.Valid()
    modifies db`schedules
    ensures db.Valid()
    ensures out == AddAnswer(old(db.classes), old(db.schedules), caller, classId, data)
    ensures out.Added? ==> db.schedules == InsertInOrder(old(db.schedules), ScheduleRow(classId, out.slot))
    ensures !out.Added? ==> db.schedules == old(db.schedules)
  {
    if !(classId < |db.classes| && db.classes[classId].professor == caller) {
      return ForeignClass;
    }
    var v := ValidateSchedule(data);
    if v.Err? {
      return FormInvalid(v.error);
    }
    var conflict := FindConflict(db.ClassSchedules(classId), v.value);
    if conflict {
      return Conflict;
    }
    AddedOverlapsNothing(db.classes, db.schedules, caller, classId, data);
    db.InsertSchedule(ScheduleRow(classId, v.value));
    return Added(v.value);
  }

  // ---------------------------------------------------------------------------
  // The active window and the session label
  // ---------------------------------------------------------------------------

  /** `get_active_schedule(class_obj, now)`: the class's first schedule, in query order, whose window holds `now`. */
  function ActiveSlot(schedules: seq<ScheduleRow>, classId: nat, now: DateTime): (r: Option<Schedule>)
    ensures r.None? <==> ActiveIndex(SchedulesOf(schedules, classId), Weekday(now.date), now.time).None?
    ensures r.Some? ==> ScheduleRow(classId, r.value) in schedules && Within(r.value, Weekday(now.date), now.time)
  {
    var ss := SchedulesOf(schedules, classId);
    match ActiveIndex(ss, Weekday(now.date), now.time)
    case None => None
    case Some(k) =>
      SchedulesOfMembers(schedules, classId, ss[k]);
      Some(ss[k])
  }

  // ---------------------------------------------------------------------------
  // activate_qr_scanning
  // ---------------------------------------------------------------------------

  /** `ServerError`: `get_or_create` raised `MultipleObjectsReturned`, which this view does not catch. */
  datatype ActivateOutcome = NotOwner | NoSchedules | NotScheduledNow | ServerError | Activated(recordId: nat, scheduleTime: string)

  function ActivateAnswer(classes: seq<ClassRow>, schedules: seq<ScheduleRow>, records: seq<Record>,
                          caller: nat, classId: nat, now: DateTime): ActivateOutcome {
    if !OwnedBy(classes, caller, classId) then NotOwner
    else if SchedulesOf(schedules, classId) == [] then NoSchedules
    else match ActiveSlot(schedules, classId, now)
      case None => NotScheduledNow
      case Some(s) =>
        if Ambiguous(records, classId, now.date, Label(s)) then ServerError
        else Activated(SessionId(records, classId, now.date, Label(s)), Label(s))
  }

  /** A second activation in the same window on the same day answers with the same record and adds none. */
  lemma ActivationIdempotent(classes: seq<ClassRow>, schedules: seq<ScheduleRow>, records: seq<Record>,
                             caller: nat, classId: nat, now: DateTime, later: DateTime)
    requires later.date == now.date && ActiveSlot(schedules, classId, later) == ActiveSlot(schedules, classId, now)
    requires ActivateAnswer(classes, schedules, records, caller, classId, now).Activated?
    ensures var first := ActivateAnswer(classes, schedules, records, caller, classId, now);
            var stored := AfterGetOrCreate(records, classId, now.date, now, first.scheduleTime, None);
            ActivateAnswer(classes, schedules, stored, caller, classId, later) == first &&
            AfterGetOrCreate(stored, classId, later.date, later, first.scheduleTime, None) == stored
  {
    var sessionLabel := Label(ActiveSlot(schedules, classId, now).value);
    GetOrCreateIdempotent(records, classId, now.date, now, later, sessionLabel, None, None);
  }

  /** On a table with one record per session, activation never meets `MultipleObjectsReturned`. */
  lemma KeyedActivationNeverFails(classes: seq<ClassRow>, schedules: seq<ScheduleRow>, records: seq<Record>,
                                  caller: nat, classId: nat, now: DateTime)
    requires RecordsKeyed(records)
    ensures ActivateAnswer(classes, schedules, records, caller, classId, now) != ServerError
  {
    if ActiveSlot(schedules, classId, now).Some? {
      KeyedUnambiguous(records, classId, now.date, Label(ActiveSlot(schedules, classId, now).value));
    }
  }

  /** `activate_qr_scanning`: this copy stores no QR payload on the record. */
  method ActivateQrScanning(db: Db, caller: nat, classId: nat, now: DateTime) returns (out: ActivateOutcome)
    requires db.Valid()
    modifies db`records
    ensures db.Valid()
    ensures out == ActivateAnswer(old(db.classes), old(db.schedules), old(db.records), caller, classId, now)
    ensures db.records == if out.Activated? then AfterGetOrCreate(old(db.records), classId, now.date, now, out.scheduleTime, None)
                          else old(db.records)
    ensures old(RecordsKeyed(db.records)) ==> RecordsKeyed(db.records)
  {
    if !(classId < |db.classes| && db.classes[classId].professor == caller) {
      return NotOwner;
    }
    var ss := db.ClassSchedules(classId);
    if ss == [] {
      return NoSchedules;
    }
    var active := GetActiveSchedule(ss, Weekday(now.date), now.time);
    if active.None? {
      return NotScheduledNow;
    }
    var sessionLabel := Label(active.value);
    var ledger := db.GetOrCreateRecord(classId, now.date, now, sessionLabel, None);
    if ledger.Clash? {
      return ServerError;
    }
    return Activated(ledger.id, sessionLabel);
  }

  // ---------------------------------------------------------------------------
  // process_qr_scan
  // ---------------------------------------------------------------------------

  /** The `student_name` member of the JSON body: missing, `null`, or a string. */
  datatype NameField = Absent | Null | Given(text: string)

  /** `(data.get('student_name') or '').strip()`. */
  function ScannedName(f: NameField): (r: string)
    ensures Trimmed(r, PyStrip)
    ensures !f.Given? ==> r == ""
    ensures f.Given? ==> IsSubstring(r, f.text)
  {
    var raw := if f.Given? then f.text else "";
    TrimShape(raw, PyStrip);
    Trim(raw, PyStrip)
  }

  /** The scanned name is the given text with exactly its surrounding whitespace removed. */
  lemma ScannedNameStripsSurroundings(f: NameField)
    requires f.Given?
    ensures StrippedFrom(ScannedName(f), f.text, PyStrip)
  {
    TrimSurroundingSpace(f.text, PyStrip);
  }

  /** `(student.get_full_name() or student.username).strip().lower()`. */
  function NameKey(u: User): string {
    Lower(Trim(DisplayName(u), PyStrip))
  }

  /** The student's display name, stripped, equals the scanned name ignoring case. */
  predicate NameMatches(u: User, scanned: string) {
    NameKey(u) == Lower(scanned)
  }

  /** The comparison keys of the students, in the same order. */
  function NameKeys(students: seq<User>): (keys: seq<string>)
    ensures |keys| == |students|
    ensures forall i :: 0 <= i < |students| ==> keys[i] == NameKey(students[i])
  {
    seq(|students|, i requires 0 <= i < |students| => NameKey(students[i]))
  }

  /** The first position of `x` in `xs`. */
  function FirstIndex<T(==)>(xs: seq<T>, x: T): (r: Option<nat>)
    ensures r.Some? ==> r.value < |xs|
  {
    if xs == [] then None
    else if xs[0] == x then Some(0)
    else match FirstIndex(xs[1..], x)
      case None => None
      case Some(k) => Some(k + 1)
  }

  /** `FirstIndex` finds the first occurrence, and finds none only when there is none. */
  lemma {:induction false} FirstIndexIsFirst<T>(xs: seq<T>, x: T)
    ensures var r := FirstIndex(xs, x);
            (r.None? <==> forall i :: 0 <= i < |xs| ==> xs[i] != x) &&
            (r.Some? ==> xs[r.value] == x && forall j :: 0 <= j < r.value ==> xs[j] != x)
  {
    if xs != [] && xs[0] != x {
      FirstIndexIsFirst(xs[1..], x);
    }
  }

  /** The first enrolled student, in enrollment query order, whose name matches. */
  function FirstMatch(students: seq<User>, scanned: string): (r: Option<nat>)
    ensures r.Some? ==> r.value < |students|
  {
    FirstIndex(NameKeys(students), Lower(scanned))
  }

  /** `FirstMatch` finds the first student whose name matches, and finds none only when no name matches. */
  lemma FirstMatchIsFirst(students: seq<User>, scanned: string)
    ensures var r := FirstMatch(students, scanned);
            (r.None? <==> forall i :: 0 <= i < |students| ==> !NameMatches(students[i], scanned)) &&
            (r.Some? ==> NameMatches(students[r.value], scanned) &&
                         forall j :: 0 <= j < r.value ==> !NameMatches(students[j], scanned))
  {
    FirstIndexIsFirst(NameKeys(students), Lower(scanned));
  }

  /** The matching loop of `process_qr_scan`: stop at the first student whose name matches. */
  method FindStudentByName(students: seq<User>, scanned: string) returns (k: Option<nat>)
    ensures k.None? <==> forall j :: 0 <= j < |students| ==> !NameMatches(students[j], scanned)
    ensures k.Some? ==>
      k.value < |students| && NameMatches(students[k.value], scanned) &&
      forall j :: 0 <= j < k.value ==> !NameMatches(students[j], scanned)
  {
    var lowerScanned := Lower(scanned);
    for i := 0 to |students|
      invariant forall j :: 0 <= j < i ==> !NameMatches(students[j], scanned)
    {
      if NameKey(students[i]) == lowerScanned {
        return Some(i);
      }
    }
    return None;
  }

  /** Only one position is the first match: whatever satisfies the search's contract is `FirstMatch`. */
  lemma FirstMatchUnique(students: seq<User>, scanned: string, k: Option<nat>)
    requires k.None? <==> forall j :: 0 <= j < |students| ==> !NameMatches(students[j], scanned)
    requires k.Some? ==>
      k.value < |students| && NameMatches(students[k.value], scanned) &&
      forall j :: 0 <= j < k.value ==> !NameMatches(students[j], scanned)
    ensures k == FirstMatch(students, scanned)
  {
    FirstMatchIsFirst(students, scanned);
    var f := FirstMatch(students, scanned);
    if k.Some? && f.Some? {
      assert !(f.value < k.value) && !(k.value < f.value);
    }
  }

  datatype ScanOutcome =
    | MalformedName                        // `None.strip()` raised: a 500 answer
    | MissingName
    | UnknownClass                         // the 404 is caught by the handler and answered as a 500
    | LedgerClash                          // `MultipleObjectsReturned` from `get_or_create`, also answered as a 500
    | NoActiveSchedule
    | StudentNotFound(name: string)
    | AlreadyMarked(student: User)
    | Recorded(student: User, recordId: nat)

  /** Whether the outcome came after `get_or_create` in professor/views.py (which runs before the name match). */
  predicate PastLedger(out: ScanOutcome) {
    out.StudentNotFound? || out.AlreadyMarked? || out.Recorded?
  }

  /** The end of `process_qr_scan` once the session record `rid` is known: match the name, then refuse a second entry. */
  function MatchAnswer(entries: seq<Entry>, students: seq<User>, name: string, rid: nat): (out: ScanOutcome)
    ensures out.StudentNotFound? || out.AlreadyMarked? || out.Recorded?
    ensures out.StudentNotFound? <==> FirstMatch(students, name).None?
    ensures out.Recorded? ==> out.recordId == rid && !Marked(entries, rid, out.student.id)
    ensures out.AlreadyMarked? ==> Marked(entries, rid, out.student.id)
  {
    match FirstMatch(students, name)
    case None => StudentNotFound(name)
    case Some(k) => if Marked(entries, rid, students[k].id) then AlreadyMarked(students[k]) else Recorded(students[k], rid)
  }

  /** What `process_qr_scan` answers, given the tables before the call. */
  function ScanAnswer(classes: seq<ClassRow>, schedules: seq<ScheduleRow>, records: seq<Record>, entries: seq<Entry>,
                      enrollments: seq<Enrollment>, caller: nat, classId: nat, field: NameField, now: DateTime): ScanOutcome {
    var name := ScannedName(field);
    if name == "" then MissingName
    else if !OwnedBy(classes, caller, classId) then UnknownClass
    else match ActiveSlot(schedules, classId, now)
      case None => NoActiveSchedule
      case Some(s) =>
        if Ambiguous(records, classId, now.date, Label(s)) then LedgerClash
        else MatchAnswer(entries, StudentsOf(enrollments, classId), name, SessionId(records, classId, now.date, Label(s)))
  }

  /** An empty or whitespace-only name is refused before anything else is looked at. */
  lemma BlankNameRejected(classes: seq<ClassRow>, schedules: seq<ScheduleRow>, records: seq<Record>, entries: seq<Entry>,
                          enrollments: seq<Enrollment>, caller: nat, classId: nat, field: NameField, now: DateTime)
    requires !field.Given? || AllSpace(field.text, PyStrip)
    ensures ScanAnswer(classes, schedules, records, entries, enrollments, caller, classId, field, now) == MissingName
  {
    if field.Given? {
      TrimEmptyIffAllSpace(field.text, PyStrip);
    }
  }

  /** A student answered by the matcher is the first of the list whose name matches. */
  lemma MatchedIsFirst(entries: seq<Entry>, students: seq<User>, name: string, rid: nat)
    requires MatchAnswer(entries, students, name, rid).Recorded? || MatchAnswer(entries, students, name, rid).AlreadyMarked?
    ensures var u := MatchAnswer(entries, students, name, rid).student;
            exists k :: 0 <= k < |students| && students[k] == u && NameMatches(u, name) &&
                        forall j :: 0 <= j < k ==> !NameMatches(students[j], name)
  {
    FirstMatchIsFirst(students, name);
    var k := FirstMatch(students, name).value;
    assert students[k] == MatchAnswer(entries, students, name, rid).student;
  }

  /** A marked student is enrolled in the class and is the first enrolled student whose name matches. */
  lemma MarkedIsFirstEnrolledMatch(classes: seq<ClassRow>, schedules: seq<ScheduleRow>, records: seq<Record>, entries: seq<Entry>,
                                   enrollments: seq<Enrollment>, caller: nat, classId: nat, field: NameField, now: DateTime)
    requires ScanAnswer(classes, schedules, records, entries, enrollments, caller, classId, field, now).Recorded?
    ensures var u := ScanAnswer(classes, schedules, records, entries, enrollments, caller, classId, field, now).student;
            Enrollment(u, classId) in enrollments &&
            exists k :: 0 <= k < |StudentsOf(enrollments, classId)| && StudentsOf(enrollments, classId)[k] == u &&
                        NameMatches(u, ScannedName(field)) &&
                        forall j :: 0 <= j < k ==> !NameMatches(StudentsOf(enrollments, classId)[j], ScannedName(field))
  {
    var students := StudentsOf(enrollments, classId);
    var s := ActiveSlot(schedules, classId, now).value;
    var rid := SessionId(records, classId, now.date, Label(s));
    MatchedIsFirst(entries, students, ScannedName(field), rid);
    var u := MatchAnswer(entries, students, ScannedName(field), rid).student;
    StudentsOfMembers(enrollments, classId, u);
  }

  /** Once the matcher has recorded a student, the same name against the same session finds the entry. */
  lemma MatchAfterEntry(entries: seq<Entry>, students: seq<User>, name: string, rid: nat, now: DateTime)
    requires MatchAnswer(entries, students, name, rid).Recorded?
    ensures var u := MatchAnswer(entries, students, name, rid).student;
            MatchAnswer(entries + [Entry(rid, u.id, now)], students, name, rid) == AlreadyMarked(u)
  {
    var u := MatchAnswer(entries, students, name, rid).student;
    var entries' := entries + [Entry(rid, u.id, now)];
    assert entries'[|entries|].recordId == rid && entries'[|entries|].studentId == u.id;
  }

  /** Once a student is marked, scanning them again in the same session is refused and adds nothing. */
  lemma RescanIsAlreadyMarked(classes: seq<ClassRow>, schedules: seq<ScheduleRow>, records: seq<Record>, entries: seq<Entry>,
                              enrollments: seq<Enrollment>, caller: nat, classId: nat, field: NameField, now: DateTime, later: DateTime)
    requires later.date == now.date && ActiveSlot(schedules, classId, later) == ActiveSlot(schedules, classId, now)
    requires ScanAnswer(classes, schedules, records, entries, enrollments, caller, classId, field, now).Recorded?
    ensures var first := ScanAnswer(classes, schedules, records, entries, enrollments, caller, classId, field, now);
            var records' := AfterGetOrCreate(records, classId, now.date, now, Label(ActiveSlot(schedules, classId, now).value), None);
            var entries' := entries + [Entry(first.recordId, first.student.id, now)];
            ScanAnswer(classes, schedules, records', entries', enrollments, caller, classId, field, later) == AlreadyMarked(first.student)
  {
    var sessionLabel := Label(ActiveSlot(schedules, classId, now).value);
    var students := StudentsOf(enrollments, classId);
    var rid := SessionId(records, classId, now.date, sessionLabel);
    GetOrCreateIdempotent(records, classId, now.date, now, later, sessionLabel, None, None);
    MatchAfterEntry(entries, students, ScannedName(field), rid, now);
  }

  /** The part of `process_qr_scan` after the active schedule is found: the session ledger, the name match and the entry. */
  method RecordScan(db: Db, classId: nat, slot: Schedule, name: string, now: DateTime) returns (out: ScanOutcome)
    requires db.Valid() && classId < |db.classes|
    modifies db`records, db`entries
    ensures db.Valid()
    ensures out == if Ambiguous(old(db.records), classId, now.date, Label(slot)) then LedgerClash
                   else MatchAnswer(old(db.entries), StudentsOf(db.enrollments, classId), name,
                                    SessionId(old(db.records), classId, now.date, Label(slot)))
    ensures db.records == AfterGetOrCreate(old(db.records), classId, now.date, now, Label(slot), None)
    ensures old(RecordsKeyed(db.records)) ==> RecordsKeyed(db.records)
    ensures db.entries == if out.Recorded? then old(db.entries) + [Entry(out.recordId, out.student.id, now)] else old(db.entries)
  {
    var ledger := db.GetOrCreateRecord(classId, now.date, now, Label(slot), None);
    if ledger.Clash? {
      return LedgerClash;
    }
    var rid := ledger.id;
    var students := db.ClassStudents(classId);
    var k := FindStudentByName(students, name);
    FirstMatchUnique(students, name, k);
    if k.None? {
      return StudentNotFound(name);
    }
    var student := students[k.value];
    var dup := db.HasEntry(rid, student.id);
    if dup {
      return AlreadyMarked(student);
    }
    db.CreateEntry(rid, student.id, now);
    return Recorded(student, rid);
  }

  /** `process_qr_scan` on a POST. */
  method ProcessQrScan(db: Db, caller: nat, classId: nat, field: NameField, now: DateTime) returns (out: ScanOutcome)
    requires db.Valid()
    modifies db`records, db`entries
    ensures db.Valid()
    ensures out == ScanAnswer(old(db.classes), old(db.schedules), old(db.records), old(db.entries), old(db.enrollments),
                              caller, classId, field, now)
    ensures db.records == if PastLedger(out)
                          then AfterGetOrCreate(old(db.records), classId, now.date, now, Label(ActiveSlot(db.schedules, classId, now).value), None)
                          else old(db.records)
    ensures old(RecordsKeyed(db.records)) ==> RecordsKeyed(db.records)
    ensures db.entries == if out.Recorded? then old(db.entries) + [Entry(out.recordId, out.student.id, now)] else old(db.entries)
  {
    var name := ScannedName(field);
    if name == "" {
      return MissingName;
    }
    if !(classId < |db.classes| && db.classes[classId].professor == caller) {
      return UnknownClass;
    }
    var active := GetActiveSchedule(db.ClassSchedules(classId), Weekday(now.date), now.time);
    if active.None? {
      return NoActiveSchedule;
    }
    out := RecordScan(db, classId, active.value, name, now);
  }

  // ---------------------------------------------------------------------------
  // verify_qr_code (identical in attendance/professor/views.py)
  // ---------------------------------------------------------------------------

  /** Two hours, in microseconds: `(now - qr_timestamp).total_seconds() > 7200` expires the token. */
  const MaxTokenAge: int := 7200 * 1000000

  datatype VerifyOutcome =
    | InvalidData          // classId or timestamp missing or empty
    | Unreadable           // the timestamp could not be parsed or compared: a 500 answer
    | Expired
    | NoSuchClass          // a 500 answer, as the 404 is caught by the handler
    | SessionNotFound
    | AlreadyAttended
    | Attended(recordId: nat)

  /** `Class.objects.get(id=class_id)` on the payload's string: only a decimal numeral names a class. */
  function IdOf(s: string): (r: Option<nat>)
    ensures r.Some? ==> s != "" && forall i :: 0 <= i < |s| ==> IsDigit(s[i])
  {
    if s != "" && forall i :: 0 <= i < |s| ==> IsDigit(s[i]) then Some(DecimalValue(s)) else None
  }

  /** `str(class_obj.id)` reads back as the same id. */
  lemma IdOfDecimal(n: nat)
    ensures IdOf(Decimal(n)) == Some(n)
  {
    DecimalRoundTrip(n);
  }

  /** `filter(class_obj=..., qr_code_data__contains=timestamp)`. */
  predicate Carries(r: Record, classId: nat, timestamp: string) {
    r.classId == classId && r.qrData.Some? && IsSubstring(timestamp, r.qrData.value)
  }

  /** `.order_by('-date').first()`: a carrying record with the latest date (the first such on ties). */
  function LatestSession(rs: seq<Record>, classId: nat, timestamp: string): (r: Option<nat>)
    ensures r.None? <==> forall i :: 0 <= i < |rs| ==> !Carries(rs[i], classId, timestamp)
    ensures r.Some? ==> r.value < |rs| && Carries(rs[r.value], classId, timestamp) &&
                        forall i :: 0 <= i < |rs| && Carries(rs[i], classId, timestamp) ==> rs[i].date.Stamp() <= rs[r.value].date.Stamp()
  {
    if rs == [] then None
    else
      var n := |rs| - 1;
      var p := LatestSession(rs[..n], classId, timestamp);
      assert forall i :: 0 <= i < n ==> rs[..n][i] == rs[i];
      if !Carries(rs[n], classId, timestamp) then p
      else if p.None? || rs[n].date.Stamp() > rs[p.value].date.Stamp() then Some(n)
      else p
  }

  /** The session lookup of `verify_qr_code`. */
  method FindLatestSession(rs: seq<Record>, classId: nat, timestamp: string) returns (best: Option<nat>)
    ensures best == LatestSession(rs, classId, timestamp)
  {
    best := None;
    for i := 0 to |rs|
      invariant best == LatestSession(rs[..i], classId, timestamp)
    {
      assert rs[..i + 1][..i] == rs[..i];
      var r := rs[i];
      if r.classId == classId && r.qrData.Some? && IsSubstring(timestamp, r.qrData.value) {
        if best.None? || r.date.Stamp() > rs[best.value].date.Stamp() {
          best := Some(i);
        }
      }
    }
    assert rs[..|rs|] == rs;
  }

  /** What `verify_qr_code` answers; `ageMicros` is `now - qr_timestamp`, `None` when it cannot be computed. */
  function VerifyAnswer(classes: seq<ClassRow>, records: seq<Record>, entries: seq<Entry>, caller: nat,
                        classIdField: Option<string>, timestamp: Option<string>, ageMicros: Option<int>): VerifyOutcome {
    if classIdField.None? || classIdField.value == "" || timestamp.None? || timestamp.value == "" then InvalidData
    else if ageMicros.None? then Unreadable
    else if ageMicros.value > MaxTokenAge then Expired
    else match IdOf(classIdField.value)
      case None => NoSuchClass
      case Some(id) =>
        if id >= |classes| then NoSuchClass
        else match LatestSession(records, id, timestamp.value)
          case None => SessionNotFound
          case Some(r) => if Marked(entries, r, caller) then AlreadyAttended else Attended(r)
  }

  /** A token exactly two hours old, or dated in the future, is still accepted; one microsecond more expires it. */
  lemma ExpiryBoundary(classes: seq<ClassRow>, records: seq<Record>, entries: seq<Entry>, caller: nat,
                       classIdField: string, timestamp: string, age: int)
    requires classIdField != "" && timestamp != ""
    ensures VerifyAnswer(classes, records, entries, caller, Some(classIdField), Some(timestamp), Some(age)) == Expired
            <==> age > 7200 * 1000000
  {
  }

  /** Records without a payload can never be found: only a payload-writing activation makes a token usable. */
  lemma VerifyNeedsPayload(classes: seq<ClassRow>, records: seq<Record>, entries: seq<Entry>, caller: nat,
                           classIdField: Option<string>, timestamp: Option<string>, ageMicros: Option<int>)
    requires forall i :: 0 <= i < |records| ==> records[i].qrData.None?
    ensures !VerifyAnswer(classes, records, entries, caller, classIdField, timestamp, ageMicros).Attended?
    ensures !VerifyAnswer(classes, records, entries, caller, classIdField, timestamp, ageMicros).AlreadyAttended?
  {
  }

  /** A student who attended a session cannot attend it again with the same token. */
  lemma ReverifyRejected(classes: seq<ClassRow>, records: seq<Record>, entries: seq<Entry>, caller: nat,
                         classIdField: Option<string>, timestamp: Option<string>, ageMicros: Option<int>, now: DateTime)
    requires VerifyAnswer(classes, records, entries, caller, classIdField, timestamp, ageMicros).Attended?
    ensures var first := VerifyAnswer(classes, records, entries, caller, classIdField, timestamp, ageMicros);
            VerifyAnswer(classes, records, entries + [Entry(first.recordId, caller, now)], caller, classIdField, timestamp, ageMicros)
              == AlreadyAttended
  {
    var first := VerifyAnswer(classes, records, entries, caller, classIdField, timestamp, ageMicros);
    var entries' := entries + [Entry(first.recordId, caller, now)];
    assert entries'[|entries|].recordId == first.recordId && entries'[|entries|].studentId == caller;
  }

  /** `verify_qr_code` on a POST, with the payload's fields already read out of the JSON body. */
  method VerifyQrCode(db: Db, caller: nat, classIdField: Option<string>, timestamp: Option<string>,
                      ageMicros: Option<int>, now: DateTime) returns (out: VerifyOutcome)
    requires db.Valid()
    modifies db`entries
    ensures db.Valid()
    ensures out == VerifyAnswer(old(db.classes), old(db.records), old(db.entries), caller, classIdField, timestamp, ageMicros)
    ensures db.entries == if out.Attended? then old(db.entries) + [Entry(out.recordId, caller, now)] else old(db.entries)
  {
    if classIdField.None? || classIdField.value == "" || timestamp.None? || timestamp.value == "" {
      return InvalidData;
    }
    if ageMicros.None? {
      return Unreadable;
    }
    if ageMicros.value > MaxTokenAge {
      return Expired;
    }
    var id := IdOf(classIdField.value);
    if id.None? || id.value >= |db.classes| {
      return NoSuchClass;
    }
    var found := FindLatestSession(db.records, id.value, timestamp.value);
    if found.None? {
      return SessionNotFound;
    }
    var dup := db.HasEntry(found.value, caller);
    if dup {
      return AlreadyAttended;
    }
    db.CreateEntry(found.value, caller, now);
    return Attended(found.value);
  }
}
