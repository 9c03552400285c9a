/**
 * The entities of professor/models.py, the class-code generator, `Class.save`
 * and `Class.__str__`, and the `unique_together` constraints stated as
 * predicates over a table (a sequence of rows in query order).
 */
module Models {
  import opened Wrappers
  import opened Text
  import opened Clock
  import opened Scheduling

  // ---------------------------------------------------------------------------
  // Class codes
  // ---------------------------------------------------------------------------

  /** `string.ascii_uppercase + string.digits`. */
  const Alphabet: string := "ABCDEFGHIJKLMNOPQRSTUVWXYZ0123456789"

  /** One `secrets.choice(characters)`: an index into the alphabet. */
  type Pick = i: int | 0 <= i < 36

  predicate IsCodeChar(c: char) {
    'A' <= c <= 'Z' || '0' <= c <= '9'
  }

  predicate IsClassCode(code: string) {
    |code| == 6 && forall i :: 0 <= i < 6 ==> IsCodeChar(code[i])
  }

  lemma AlphabetChars(i: Pick)
    ensures IsCodeChar(Alphabet[i])
  {
  }

  /** `''.join(secrets.choice(characters) for _ in range(6))` for six given picks. */
  function Draw(picks: seq<Pick>): (code: string)
    requires |picks| == 6
    ensures IsClassCode(code)
  {
    var code := seq(6, k requires 0 <= k < 6 => Alphabet[picks[k]]);
    forall k | 0 <= k < 6 ensures IsCodeChar(code[k]) {
      AlphabetChars(picks[k]);
    }
    code
  }

  /** The `k`-th draw of six picks. */
  predicate DrawTaken(taken: set<string>, picks: seq<Pick>, k: nat)
    requires 6 * k + 6 <= |picks|
  {
    Draw(picks[6 * k..6 * k + 6]) in taken
  }

  /** The code the retry loop settles on when the random source yields `picks`, six at a time. */
  function FirstFreeDraw(taken: set<string>, picks: seq<Pick>): (r: Option<string>)
    decreases |picks|
    ensures r.Some? ==> IsClassCode(r.value) && r.value !in taken
    ensures r.None? <==> forall k: nat :: 6 * k + 6 <= |picks| ==> DrawTaken(taken, picks, k)
  {
    if |picks| < 6 then None
    else
      var code := Draw(picks[..6]);
      if code !in taken then
        assert picks[6 * 0..6 * 0 + 6] == picks[..6];
        assert !DrawTaken(taken, picks, 0);
        Some(code)
      else
        var rest := FirstFreeDraw(taken, picks[6..]);
        forall k: nat | 6 * k + 6 <= |picks| - 6
          ensures DrawTaken(taken, picks[6..], k) == DrawTaken(taken, picks, k + 1)
        {
          assert picks[6..][6 * k..6 * k + 6] == picks[6 * (k + 1)..6 * (k + 1) + 6];
        }
        assert picks[6 * 0..6 * 0 + 6] == picks[..6];
        assert DrawTaken(taken, picks, 0);
        if rest.None? then
          assert forall k: nat :: 6 * k + 6 <= |picks| ==> DrawTaken(taken, picks, k) by {
            forall k: nat | 6 * k + 6 <= |picks| ensures DrawTaken(taken, picks, k) {
              if k > 0 {
                assert DrawTaken(taken, picks[6..], k - 1);
              }
            }
          }
          rest
        else
          var k: nat :| 6 * k + 6 <= |picks| - 6 && !DrawTaken(taken, picks[6..], k);
          assert !DrawTaken(taken, picks, k + 1);
          rest
  }

  /**
   * `generate_class_code()`: draw six characters until the code is not an
   * existing class code. The random source is the finite stream `picks`;
   * `None` means the stream ran out before a free code came up.
   */
  method GenerateClassCode(taken: set<string>, picks: seq<Pick>) returns (code: Option<string>)
    ensures code == FirstFreeDraw(taken, picks)
    ensures code.Some? ==> IsClassCode(code.value) && code.value !in taken
  {
    var i := 0;
    while i + 6 <= |picks|
      invariant 0 <= i <= |picks|
      invariant FirstFreeDraw(taken, picks) == FirstFreeDraw(taken, picks[i..])
    {
      var candidate := Draw(picks[i..i + 6]);
      assert picks[i..][..6] == picks[i..i + 6];
      if candidate !in taken {
        return Some(candidate);
      }
      assert picks[i..][6..] == picks[i + 6..];
      i := i + 6;
    }
    return None;
  }

  // ---------------------------------------------------------------------------
  // Class
  // ---------------------------------------------------------------------------

  /** A `Class` row; `code` is `""` while no class code is set. */
  datatype ClassRow = ClassRow(
    professor: nat,
    subject: string,
    section: Option<string>,
    room: Option<string>,
    description: Option<string>,
    code: string)

  /** `Class.save()`: generate a code only when none is set, then store the row. */
  method Save(row: ClassRow, taken: set<string>, picks: seq<Pick>) returns (saved: Option<ClassRow>)
    ensures row.code != "" ==> saved == Some(row)
    ensures row.code == "" ==> (saved.None? <==> FirstFreeDraw(taken, picks).None?)
    ensures row.code == "" && saved.Some? ==>
      saved.value == row.(code := FirstFreeDraw(taken, picks).value) && IsClassCode(saved.value.code) && saved.value.code !in taken
  {
    if row.code != "" {
      return Some(row);
    }
    var code := GenerateClassCode(taken, picks);
    if code.None? {
      return None;
    }
    return Some(row.(code := code.value));
  }

  /** `Class.__str__`. */
  function Title(c: ClassRow): (r: string)
    ensures |c.subject| <= |r| && r[..|c.subject|] == c.subject
    ensures r == c.subject <==> (c.section.None? || c.section.value == "")
    ensures c.section.Some? && c.section.value != "" ==>
      r[|c.subject|..] == " - Section " + c.section.value
  {
    if c.section.Some? && c.section.value != "" then c.subject + " - Section " + c.section.value
    else c.subject
  }

  // ---------------------------------------------------------------------------
  // Other rows
  // ---------------------------------------------------------------------------

  /** A Django `User`: `fullName` is what `get_full_name()` returns. */
  datatype User = User(id: nat, username: string, fullName: string)

  /** `user.get_full_name() or user.username`. */
  function DisplayName(u: User): (r: string)
    ensures r == (if u.fullName != "" then u.fullName else u.username)
    ensures u.fullName != "" ==> r == u.fullName
  {
    if u.fullName != "" then u.fullName else u.username
  }

  datatype ScheduleRow = ScheduleRow(classId: nat, slot: Schedule)

  datatype ExtraClassRow = ExtraClassRow(classId: nat, date: nat, start: Time, end: Time, reason: Option<string>)

  /** An `AttendanceRecord`; `scheduleTime` is its `schedule_time`, `qrData` its `qr_code_data`. */
  datatype Record = Record(classId: nat, date: DateTime, scheduleTime: string, qrData: Option<string>, canceled: bool)

  datatype Entry = Entry(recordId: nat, studentId: nat, scannedAt: DateTime)

  datatype Enrollment = Enrollment(student: User, classId: nat)

  /** A record as `create` stores it: the field default leaves it not canceled. */
  function NewRecord(classId: nat, now: DateTime, scheduleTime: string, qrData: Option<string>): (r: Record)
    ensures !r.canceled && r.date == now
  {
    Record(classId, now, scheduleTime, qrData, false)
  }

  // ---------------------------------------------------------------------------
  // Table constraints
  // ---------------------------------------------------------------------------

  /** `class_code` is `unique=True`, and every saved code is a generated one. */
  predicate CodesValid(cs: seq<ClassRow>) {
    (forall i :: 0 <= i < |cs| ==> IsClassCode(cs[i].code)) &&
    forall i, j :: 0 <= i < j < |cs| ==> cs[i].code != cs[j].code
  }

  /** `Schedule.Meta.unique_together = ['class_obj', 'day', 'start_time', 'end_time']`. */
  predicate SchedulesUnique(rows: seq<ScheduleRow>) {
    forall i, j :: 0 <= i < j < |rows| ==> rows[i] != rows[j]
  }

  /** `ExtraClass.Meta.unique_together = ['class_obj', 'date', 'start_time', 'end_time']`. */
  predicate ExtrasUnique(rows: seq<ExtraClassRow>) {
    forall i, j :: 0 <= i < j < |rows| ==>
      (rows[i].classId, rows[i].date, rows[i].start, rows[i].end) != (rows[j].classId, rows[j].date, rows[j].start, rows[j].end)
  }

  /** The natural key of a session: class, calendar date and label. */
  predicate SameSession(r: Record, classId: nat, date: nat, scheduleTime: string) {
    r.classId == classId && r.date.date == date && r.scheduleTime == scheduleTime
  }

  /** At most one record per (class, date, label); kept by `get_or_create`, not by a declared constraint. */
  predicate RecordsKeyed(rs: seq<Record>) {
    forall i, j :: 0 <= i < j < |rs| ==> !SameSession(rs[j], rs[i].classId, rs[i].date.date, rs[i].scheduleTime)
  }

  /** `AttendanceEntry.Meta.unique_together = ['attendance_record', 'student']`. */
  predicate EntriesUnique(es: seq<Entry>) {
    forall i, j :: 0 <= i < j < |es| ==> (es[i].recordId, es[i].studentId) != (es[j].recordId, es[j].studentId)
  }

  /** `StudentClassEnrollment.Meta.unique_together = ['student', 'class_obj']`. */
  predicate EnrollmentsUnique(en: seq<Enrollment>) {
    forall i, j :: 0 <= i < j < |en| ==> (en[i].student.id, en[i].classId) != (en[j].student.id, en[j].classId)
  }
}
