/**
 * The tables the views read and write, held in memory by one `Db` object.
 * Each table is a sequence of rows; a row's id is its position (classes and
 * records are never deleted here). `Valid` collects the model constraints;
 * every write keeps it. The rule of one attendance record per session
 * (`RecordsKeyed`) is no database constraint: only `get_or_create` keeps it,
 * and only when the date it stores falls on the day it looked up.
 *
 * Query order follows the models' `Meta.ordering`: schedules by
 * (day name, start time), enrollments newest first.
 */
module Database {
  import opened Wrappers
  import opened Clock
  import opened Scheduling
  import opened Models

  // ---------------------------------------------------------------------------
  // Queries over table values
  // ---------------------------------------------------------------------------

  /** `class_obj.schedules.all()`: the class's schedules in table order. */
  function SchedulesOf(rows: seq<ScheduleRow>, classId: nat): (r: seq<Schedule>)
    ensures |r| <= |rows|
  {
    if rows == [] then []
    else (if rows[0].classId == classId then [rows[0].slot] else []) + SchedulesOf(rows[1..], classId)
  }

  /** A schedule is listed for a class exactly when the table holds it for that class. */
  lemma {:induction false} SchedulesOfMembers(rows: seq<ScheduleRow>, classId: nat, s: Schedule)
    ensures s in SchedulesOf(rows, classId) <==> ScheduleRow(classId, s) in rows
  {
    if rows != [] {
      SchedulesOfMembers(rows[1..], classId, s);
      assert rows == [rows[0]] + rows[1..];
    }
  }

  /** Every schedule of the class, and only those, takes part in the conflict check. */
  lemma ConflictsOfClass(rows: seq<ScheduleRow>, classId: nat, cand: Schedule)
    ensures ConflictsWithSome(SchedulesOf(rows, classId), cand) <==>
            exists i :: 0 <= i < |rows| && rows[i].classId == classId && Conflicts(cand, rows[i].slot)
  {
    var ss := SchedulesOf(rows, classId);
    if ConflictsWithSome(ss, cand) {
      var k :| 0 <= k < |ss| && Conflicts(cand, ss[k]);
      SchedulesOfMembers(rows, classId, ss[k]);
      var i :| 0 <= i < |rows| && rows[i] == ScheduleRow(classId, ss[k]);
      assert rows[i].classId == classId && Conflicts(cand, rows[i].slot);
    }
    if exists i :: 0 <= i < |rows| && rows[i].classId == classId && Conflicts(cand, rows[i].slot) {
      var i :| 0 <= i < |rows| && rows[i].classId == classId && Conflicts(cand, rows[i].slot);
      assert rows[i] == ScheduleRow(classId, rows[i].slot);
      SchedulesOfMembers(rows, classId, rows[i].slot);
      var k :| 0 <= k < |ss| && ss[k] == rows[i].slot;
      assert Conflicts(cand, ss[k]);
    }
  }

  /** The class's enrolled students in query order (newest enrollment first). */
  function StudentsOf(en: seq<Enrollment>, classId: nat): (r: seq<User>)
    ensures |r| <= |en|
  {
    if en == [] then []
    else (if en[0].classId == classId then [en[0].student] else []) + StudentsOf(en[1..], classId)
  }

  /** A student is listed for a class exactly when one of the class's enrollments is theirs. */
  lemma {:induction false} StudentsOfMembers(en: seq<Enrollment>, classId: nat, u: User)
    ensures u in StudentsOf(en, classId) <==> Enrollment(u, classId) in en
  {
    if en != [] {
      StudentsOfMembers(en[1..], classId, u);
      assert en == [en[0]] + en[1..];
    }
  }

  /** `AttendanceEntry.objects.filter(attendance_record=r, student=s).exists()`. */
  predicate Marked(es: seq<Entry>, recordId: nat, studentId: nat) {
    exists i :: 0 <= i < |es| && es[i].recordId == recordId && es[i].studentId == studentId
  }

  predicate Enrolled(en: seq<Enrollment>, studentId: nat, classId: nat) {
    exists i :: 0 <= i < |en| && en[i].student.id == studentId && en[i].classId == classId
  }

  // ---------------------------------------------------------------------------
  // Session ledger
  // ---------------------------------------------------------------------------

  /** The record of the session (class, calendar date, label): the first one in the table. */
  function SessionOf(rs: seq<Record>, classId: nat, date: nat, scheduleTime: string): (r: Option<nat>)
    ensures r.None? <==> forall i :: 0 <= i < |rs| ==> !SameSession(rs[i], classId, date, scheduleTime)
    ensures r.Some? ==> r.value < |rs| && SameSession(rs[r.value], classId, date, scheduleTime) &&
                        forall j :: 0 <= j < r.value ==> !SameSession(rs[j], classId, date, scheduleTime)
  {
    if rs == [] then None
    else if SameSession(rs[0], classId, date, scheduleTime) then Some(0)
    else match SessionOf(rs[1..], classId, date, scheduleTime)
      case None => None
      case Some(k) => Some(k + 1)
  }

  /** More than one record answers the session's lookup, so `get` raises `MultipleObjectsReturned`. */
  predicate Ambiguous(rs: seq<Record>, classId: nat, date: nat, scheduleTime: string) {
    exists i, j :: 0 <= i < j < |rs| && SameSession(rs[i], classId, date, scheduleTime) && SameSession(rs[j], classId, date, scheduleTime)
  }

  /** With at most one record per session no lookup is ambiguous. */
  lemma KeyedUnambiguous(rs: seq<Record>, classId: nat, date: nat, scheduleTime: string)
    requires RecordsKeyed(rs)
    ensures !Ambiguous(rs, classId, date, scheduleTime)
  {
  }

  /** The id `get_or_create` answers with: the existing record's, else the next free one. */
  function SessionId(rs: seq<Record>, classId: nat, date: nat, scheduleTime: string): (id: nat)
    ensures id <= |rs|
    ensures id == |rs| <==> SessionOf(rs, classId, date, scheduleTime).None?
  {
    match SessionOf(rs, classId, date, scheduleTime)
    case None => |rs|
    case Some(k) => k
  }

  /** What `get_or_create` comes back with: the record it found, the one it created, or the exception. */
  datatype Ledger = Found(id: nat) | Inserted(id: nat) | Clash

  function LedgerAnswer(rs: seq<Record>, classId: nat, date: nat, scheduleTime: string): (r: Ledger)
    ensures r.Clash? <==> Ambiguous(rs, classId, date, scheduleTime)
    ensures r.Inserted? <==> forall i :: 0 <= i < |rs| ==> !SameSession(rs[i], classId, date, scheduleTime)
    ensures r.Found? ==> r.id < |rs| && SameSession(rs[r.id], classId, date, scheduleTime) &&
                         forall j :: 0 <= j < |rs| && j != r.id ==> !SameSession(rs[j], classId, date, scheduleTime)
    ensures r.Inserted? ==> r.id == |rs|
  {
    if Ambiguous(rs, classId, date, scheduleTime) then Clash
    else match SessionOf(rs, classId, date, scheduleTime)
      case None => Inserted(|rs|)
      case Some(k) => Found(k)
  }

  /**
   * The records table after `get_or_create(date__date=date, defaults={'date': stamp, ...})`:
   * unchanged when the lookup finds a record (or raises), else one new record
   * dated `stamp`, whose own calendar date need not be `date`.
   */
  function AfterGetOrCreate(rs: seq<Record>, classId: nat, date: nat, stamp: DateTime, scheduleTime: string,
                            qrData: Option<string>): (r: seq<Record>)
    ensures SessionOf(rs, classId, date, scheduleTime).Some? ==> r == rs
    ensures SessionOf(rs, classId, date, scheduleTime).None? ==>
              |r| == |rs| + 1 && r[..|rs|] == rs &&
              r[|rs|].classId == classId && r[|rs|].scheduleTime == scheduleTime && r[|rs|].date == stamp &&
              r[|rs|].qrData == qrData && !r[|rs|].canceled
  {
    if SessionOf(rs, classId, date, scheduleTime).Some? then rs
    else rs + [NewRecord(classId, stamp, scheduleTime, qrData)]
  }

  /** When the stored date falls on the looked-up day, the session exists afterwards, at the id answered, and stays unambiguous. */
  lemma {:induction false} SessionAfterGetOrCreate(rs: seq<Record>, classId: nat, date: nat, stamp: DateTime,
                                                   scheduleTime: string, qrData: Option<string>)
    requires stamp.date == date
    ensures var r := AfterGetOrCreate(rs, classId, date, stamp, scheduleTime, qrData);
            SessionOf(r, classId, date, scheduleTime) == Some(SessionId(rs, classId, date, scheduleTime)) &&
            (!Ambiguous(rs, classId, date, scheduleTime) ==> !Ambiguous(r, classId, date, scheduleTime))
  {
    var r := AfterGetOrCreate(rs, classId, date, stamp, scheduleTime, qrData);
    var found := SessionOf(r, classId, date, scheduleTime);
    if SessionOf(rs, classId, date, scheduleTime).None? {
      assert SameSession(r[|rs|], classId, date, scheduleTime);
      assert forall j :: 0 <= j < |rs| ==> r[j] == rs[j];
      assert found.Some?;
    }
  }

  /**
   * Repeating `get_or_create` for the same class, day and label (with any
   * stored date and defaults) adds no second record, as long as the first
   * call stored a date on the looked-up day.
   */
  lemma GetOrCreateIdempotent(rs: seq<Record>, classId: nat, date: nat, stamp: DateTime, later: DateTime, scheduleTime: string,
                              qrData: Option<string>, laterData: Option<string>)
    requires stamp.date == date
    ensures var once := AfterGetOrCreate(rs, classId, date, stamp, scheduleTime, qrData);
            AfterGetOrCreate(once, classId, date, later, scheduleTime, laterData) == once &&
            SessionId(once, classId, date, scheduleTime) == SessionId(rs, classId, date, scheduleTime) &&
            (!Ambiguous(rs, classId, date, scheduleTime) ==> !Ambiguous(once, classId, date, scheduleTime))
  {
    SessionAfterGetOrCreate(rs, classId, date, stamp, scheduleTime, qrData);
  }

  /** A record stored on another day than the looked-up one is not found again: the next call creates a second record. */
  lemma {:induction false} MisdatedGetOrCreateRepeats(rs: seq<Record>, classId: nat, date: nat, stamp: DateTime, later: DateTime,
                                                      scheduleTime: string, qrData: Option<string>, laterData: Option<string>)
    requires stamp.date != date && later.date == stamp.date
    requires SessionOf(rs, classId, date, scheduleTime).None?
    ensures var once := AfterGetOrCreate(rs, classId, date, stamp, scheduleTime, qrData);
            var twice := AfterGetOrCreate(once, classId, date, later, scheduleTime, laterData);
            |twice| == |rs| + 2 && Ambiguous(twice, classId, stamp.date, scheduleTime)
  {
    var once := AfterGetOrCreate(rs, classId, date, stamp, scheduleTime, qrData);
    assert forall j :: 0 <= j < |rs| ==> once[j] == rs[j];
    assert !SameSession(once[|rs|], classId, date, scheduleTime);
    assert SessionOf(once, classId, date, scheduleTime).None?;
    var twice := AfterGetOrCreate(once, classId, date, later, scheduleTime, laterData);
    assert twice[|rs|] == once[|rs|];
    assert SameSession(twice[|rs|], classId, stamp.date, scheduleTime) && SameSession(twice[|rs| + 1], classId, stamp.date, scheduleTime);
  }

  /** `get_or_create` keeps at most one record per session when it stores a date on the looked-up day. */
  lemma GetOrCreateKeepsKeyed(rs: seq<Record>, classId: nat, date: nat, stamp: DateTime, scheduleTime: string, qrData: Option<string>)
    requires RecordsKeyed(rs) && stamp.date == date
    ensures RecordsKeyed(AfterGetOrCreate(rs, classId, date, stamp, scheduleTime, qrData))
  {
    var r := AfterGetOrCreate(rs, classId, date, stamp, scheduleTime, qrData);
    if r != rs {
      forall i, j | 0 <= i < j < |r|
        ensures !SameSession(r[j], r[i].classId, r[i].date.date, r[i].scheduleTime)
      {
        if j == |rs| {
          assert r[i] == rs[i];
          assert !SameSession(rs[i], classId, date, scheduleTime);
        } else {
          assert r[i] == rs[i] && r[j] == rs[j];
        }
      }
    }
  }

  // ---------------------------------------------------------------------------
  // Schedule query order
  // ---------------------------------------------------------------------------

  /** `a` sorts strictly before `b` under `ordering = ['day', 'start_time']`. */
  predicate Before(a: ScheduleRow, b: ScheduleRow) {
    DayRank(a.slot.day) < DayRank(b.slot.day) ||
    (DayRank(a.slot.day) == DayRank(b.slot.day) && a.slot.start.Minutes() < b.slot.start.Minutes())
  }

  predicate InQueryOrder(rows: seq<ScheduleRow>) {
    forall i, j :: 0 <= i < j < |rows| ==> !Before(rows[j], rows[i])
  }

  /** Where a new row lands: after every row that does not sort after it. */
  function InsertPos(rows: seq<ScheduleRow>, row: ScheduleRow): (p: nat)
    ensures p <= |rows|
    ensures forall i :: 0 <= i < p ==> !Before(row, rows[i])
    ensures p < |rows| ==> Before(row, rows[p])
  {
    if rows == [] || Before(row, rows[0]) then 0 else 1 + InsertPos(rows[1..], row)
  }

  function InsertInOrder(rows: seq<ScheduleRow>, row: ScheduleRow): (r: seq<ScheduleRow>)
    ensures |r| == |rows| + 1
  {
    var p := InsertPos(rows, row);
    rows[..p] + [row] + rows[p..]
  }

  /** A row sorting before `b` also sorts before anything `b` does not sort after. */
  lemma BeforeStep(a: ScheduleRow, b: ScheduleRow, c: ScheduleRow)
    requires Before(a, b) && !Before(c, b)
    ensures !Before(c, a)
  {
  }

  /** Inserting at `InsertPos` keeps the table in query order and adds exactly the new row. */
  lemma InsertKeepsOrder(rows: seq<ScheduleRow>, row: ScheduleRow)
    requires InQueryOrder(rows)
    ensures InQueryOrder(InsertInOrder(rows, row))
    ensures multiset(InsertInOrder(rows, row)) == multiset(rows) + multiset{row}
  {
    var p := InsertPos(rows, row);
    var r := InsertInOrder(rows, row);
    forall i, j | 0 <= i < j < |r|
      ensures !Before(r[j], r[i])
    {
      InsertIndex(rows, row, i);
      InsertIndex(rows, row, j);
      if i == p && j > p {
        if j - 1 > p {
          BeforeStep(row, rows[p], rows[j - 1]);
        }
      }
    }
    assert rows == rows[..p] + rows[p..];
  }

  // ---------------------------------------------------------------------------
  // Table invariants
  // ---------------------------------------------------------------------------

  /** No two schedules of one class overlap on the same day. */
  predicate ClassesConflictFree(rows: seq<ScheduleRow>) {
    forall i, j :: 0 <= i < |rows| && 0 <= j < |rows| && i != j && rows[i].classId == rows[j].classId ==>
      !SameDayOverlap(rows[i].slot, rows[j].slot)
  }

  predicate SchedulesValid(rows: seq<ScheduleRow>, classCount: nat) {
    (forall i :: 0 <= i < |rows| ==> rows[i].classId < classCount && ValidRange(rows[i].slot)) &&
    InQueryOrder(rows) && ClassesConflictFree(rows)
  }

  /** Conflict-free valid schedules satisfy the `unique_together` constraint. */
  lemma SchedulesValidAreUnique(rows: seq<ScheduleRow>, classCount: nat)
    requires SchedulesValid(rows, classCount)
    ensures SchedulesUnique(rows)
  {
    forall i, j | 0 <= i < j < |rows|
      ensures rows[i] != rows[j]
    {
      assert SameDayOverlap(rows[i].slot, rows[i].slot);
      if rows[i].classId == rows[j].classId {
        assert !SameDayOverlap(rows[i].slot, rows[j].slot);
      }
    }
  }

  /** Where each row of the old table sits after the insertion. */
  lemma InsertIndex(rows: seq<ScheduleRow>, row: ScheduleRow, k: nat)
    requires k <= |rows|
    ensures InsertInOrder(rows, row)[k] ==
      (if k < InsertPos(rows, row) then rows[k] else if k == InsertPos(rows, row) then row else rows[k - 1])
  {
  }

  /** A new row that overlaps none of its class's schedules keeps the class conflict-free. */
  lemma InsertKeepsConflictFree(rows: seq<ScheduleRow>, row: ScheduleRow)
    requires ClassesConflictFree(rows)
    requires forall i :: 0 <= i < |rows| && rows[i].classId == row.classId ==> !SameDayOverlap(row.slot, rows[i].slot)
    ensures ClassesConflictFree(InsertInOrder(rows, row))
  {
    var p := InsertPos(rows, row);
    var r := InsertInOrder(rows, row);
    forall i, j | 0 <= i < |r| && 0 <= j < |r| && i != j && r[i].classId == r[j].classId
      ensures !SameDayOverlap(r[i].slot, r[j].slot)
    {
      InsertIndex(rows, row, i);
      InsertIndex(rows, row, j);
      var oi := if i < p then i else i - 1;
      var oj := if j < p then j else j - 1;
      if i == p {
        assert r[j] == rows[oj];
      } else if j == p {
        assert r[i] == rows[oi];
      } else {
        assert r[i] == rows[oi] && r[j] == rows[oj] && oi != oj;
      }
    }
  }

  /** A valid new row that overlaps none of its class's schedules keeps the schedule table valid. */
  lemma InsertKeepsSchedulesValid(rows: seq<ScheduleRow>, row: ScheduleRow, classCount: nat)
    requires SchedulesValid(rows, classCount)
    requires row.classId < classCount && ValidRange(row.slot)
    requires forall i :: 0 <= i < |rows| && rows[i].classId == row.classId ==> !SameDayOverlap(row.slot, rows[i].slot)
    ensures SchedulesValid(InsertInOrder(rows, row), classCount)
  {
    InsertKeepsOrder(rows, row);
    InsertKeepsConflictFree(rows, row);
    var r := InsertInOrder(rows, row);
    forall k | 0 <= k < |r|
      ensures r[k].classId < classCount && ValidRange(r[k].slot)
    {
      InsertIndex(rows, row, k);
    }
  }

  predicate RecordsValid(rs: seq<Record>, classCount: nat) {
    forall i :: 0 <= i < |rs| ==> rs[i].classId < classCount
  }

  predicate EntriesValid(es: seq<Entry>, recordCount: nat) {
    (forall i :: 0 <= i < |es| ==> es[i].recordId < recordCount) && EntriesUnique(es)
  }

  predicate EnrollmentsValid(en: seq<Enrollment>, classCount: nat) {
    (forall i :: 0 <= i < |en| ==> en[i].classId < classCount) && EnrollmentsUnique(en)
  }

  predicate ExtrasValid(xs: seq<ExtraClassRow>, classCount: nat) {
    (forall i :: 0 <= i < |xs| ==> xs[i].classId < classCount) && ExtrasUnique(xs)
  }

  // ---------------------------------------------------------------------------
  // The database
  // ---------------------------------------------------------------------------

  class Db {
    var classes: seq<ClassRow>
    var schedules: seq<ScheduleRow>
    var extras: seq<ExtraClassRow>
    var records: seq<Record>
    var entries: seq<Entry>
    var enrollments: seq<Enrollment>

    ghost predicate Valid()
      reads this
    {
      CodesValid(classes) &&
      SchedulesValid(schedules, |classes|) &&
      ExtrasValid(extras, |classes|) &&
      RecordsValid(records, |classes|) &&
      EntriesValid(entries, |records|) &&
      EnrollmentsValid(enrollments, |classes|)
    }

    constructor ()
      ensures Valid()
      ensures classes == [] && schedules == [] && extras == [] && records == [] && entries == [] && enrollments == []
    {
      classes, schedules, extras := [], [], [];
      records, entries, enrollments := [], [], [];
    }

    /** `get_object_or_404(Class, id=class_id, professor=request.user)` succeeds. */
    predicate Owns(caller: nat, classId: nat)
      reads this
    {
      classId < |classes| && classes[classId].professor == caller
    }

    function ClassSchedules(classId: nat): seq<Schedule>
      reads this
    {
      SchedulesOf(schedules, classId)
    }

    function ClassStudents(classId: nat): seq<User>
      reads this
    {
      StudentsOf(enrollments, classId)
    }

    function Codes(): set<string>
      reads this
    {
      set i | 0 <= i < |classes| :: classes[i].code
    }

    /** The lookup half of `get_or_create`: the first record with this natural key, and whether there is a second. */
    method FindRecord(classId: nat, date: nat, scheduleTime: string) returns (k: Option<nat>, many: bool)
      ensures k == SessionOf(records, classId, date, scheduleTime)
      ensures many <==> Ambiguous(records, classId, date, scheduleTime)
    {
      k, many := None, false;
      for i := 0 to |records|
        invariant k.None? ==> forall j :: 0 <= j < i ==> !SameSession(records[j], classId, date, scheduleTime)
        invariant k.Some? ==> k.value < i && SameSession(records[k.value], classId, date, scheduleTime) &&
                              forall j :: 0 <= j < k.value ==> !SameSession(records[j], classId, date, scheduleTime)
        invariant many <==> exists a, b :: 0 <= a < b < i && SameSession(records[a], classId, date, scheduleTime) &&
                                           SameSession(records[b], classId, date, scheduleTime)
      {
        if records[i].classId == classId && records[i].date.date == date && records[i].scheduleTime == scheduleTime {
          if k.Some? {
            many := true;
          } else {
            k := Some(i);
          }
        }
      }
    }

    /**
     * `AttendanceRecord.objects.get_or_create(class_obj, date__date=date,
     * schedule_time, defaults={'date': stamp, ...})`. The table keeps one
     * record per session when the stored date falls on the looked-up day.
     */
    method GetOrCreateRecord(classId: nat, date: nat, stamp: DateTime, scheduleTime: string, qrData: Option<string>)
      returns (out: Ledger)
      requires Valid() && classId < |classes|
      modifies this`records
      ensures Valid()
      ensures out == LedgerAnswer(old(records), classId, date, scheduleTime)
      ensures records == AfterGetOrCreate(old(records), classId, date, stamp, scheduleTime, qrData)
      ensures !out.Clash? ==> out.id < |records|
      ensures stamp.date == date && old(RecordsKeyed(records)) ==> RecordsKeyed(records)
    {
      var found, many := FindRecord(classId, date, scheduleTime);
      if many {
        return Clash;
      }
      if found.Some? {
        return Found(found.value);
      }
      if stamp.date == date && RecordsKeyed(records) {
        GetOrCreateKeepsKeyed(records, classId, date, stamp, scheduleTime, qrData);
      }
      records := records + [NewRecord(classId, stamp, scheduleTime, qrData)];
      return Inserted(|records| - 1);
    }

    /** `attendance_record.qr_code_data = payload; attendance_record.save()`. */
    method SetPayload(id: nat, payload: string)
      requires Valid() && id < |records|
      modifies this`records
      ensures Valid()
      ensures records == old(records)[id := old(records)[id].(qrData := Some(payload))]
    {
      records := records[id := records[id].(qrData := Some(payload))];
    }

    method HasEntry(recordId: nat, studentId: nat) returns (b: bool)
      ensures b <==> Marked(entries, recordId, studentId)
    {
      for i := 0 to |entries|
        invariant forall j :: 0 <= j < i ==> !(entries[j].recordId == recordId && entries[j].studentId == studentId)
      {
        if entries[i].recordId == recordId && entries[i].studentId == studentId {
          return true;
        }
      }
      return false;
    }

    /** `AttendanceEntry.objects.create(...)`; the unique constraint requires that no entry exists yet. */
    method CreateEntry(recordId: nat, studentId: nat, now: DateTime)
      requires Valid() && recordId < |records|
      requires !Marked(entries, recordId, studentId)
      modifies this`entries
      ensures Valid()
      ensures entries == old(entries) + [Entry(recordId, studentId, now)]
    {
      entries := entries + [Entry(recordId, studentId, now)];
    }

    /** `schedule.save()`: the row takes its place in query order. */
    method InsertSchedule(row: ScheduleRow)
      requires Valid() && row.classId < |classes| && ValidRange(row.slot)
      requires forall i :: 0 <= i < |schedules| && schedules[i].classId == row.classId ==>
                 !SameDayOverlap(row.slot, schedules[i].slot)
      modifies this`schedules
      ensures Valid()
      ensures schedules == InsertInOrder(old(schedules), row)
    {
      InsertKeepsSchedulesValid(schedules, row, |classes|);
      schedules := InsertInOrder(schedules, row);
    }

    /** `Class.objects.get(class_code=code)`. */
    method FindClassByCode(code: string) returns (id: Option<nat>)
      ensures id.None? <==> forall i :: 0 <= i < |classes| ==> classes[i].code != code
      ensures id.Some? ==> id.value < |classes| && classes[id.value].code == code
    {
      for i := 0 to |classes|
        invariant forall j :: 0 <= j < i ==> classes[j].code != code
      {
        if classes[i].code == code {
          return Some(i);
        }
      }
      return None;
    }

    /** The enrollment of (student, class), if any. */
    method FindEnrollment(studentId: nat, classId: nat) returns (k: Option<nat>)
      ensures k.None? <==> !Enrolled(enrollments, studentId, classId)
      ensures k.Some? ==> k.value < |enrollments| &&
                          enrollments[k.value].student.id == studentId && enrollments[k.value].classId == classId
    {
      for i := 0 to |enrollments|
        invariant forall j :: 0 <= j < i ==> !(enrollments[j].student.id == studentId && enrollments[j].classId == classId)
      {
        if enrollments[i].student.id == studentId && enrollments[i].classId == classId {
          return Some(i);
        }
      }
      return None;
    }

    /** `StudentClassEnrollment.objects.create(...)`: the newest enrollment comes first in query order. */
    method Enroll(student: User, classId: nat)
      requires Valid() && classId < |classes|
      requires !Enrolled(enrollments, student.id, classId)
      modifies this`enrollments
      ensures Valid()
      ensures enrollments == [Enrollment(student, classId)] + old(enrollments)
    {
      enrollments := [Enrollment(student, classId)] + enrollments;
    }

    /** `enrollment.delete()`. */
    method Unenroll(k: nat)
      requires Valid() && k < |enrollments|
      modifies this`enrollments
      ensures Valid()
      ensures enrollments == old(enrollments)[..k] + old(enrollments)[k + 1..]
    {
      enrollments := enrollments[..k] + enrollments[k + 1..];
    }

    /** Stores a saved class row; its code is new. */
    method InsertClass(row: ClassRow) returns (id: nat)
      requires Valid() && IsClassCode(row.code) && row.code !in Codes()
      modifies this`classes
      ensures Valid()
      ensures classes == old(classes) + [row] && id == |old(classes)|
    {
      classes := classes + [row];
      id := |classes| - 1;
    }

    /** Writes back an edited class row; the code is the one already stored. */
    method UpdateClass(id: nat, row: ClassRow)
      requires Valid() && id < |classes| && row.code == classes[id].code
      modifies this`classes
      ensures Valid()
      ensures classes == old(classes)[id := row]
    {
      classes := classes[id := row];
    }
  }
}
