/**
 * student/views.py and attendance/student/views.py: joining a class by its
 * code, leaving it, the student's own QR text, and the three calendar
 * dictionaries of the dashboard. `join_class`, `leave_class` and
 * `my_qr_code` are identical in the two files; only student/views.py builds
 * the calendar dictionaries.
 */
module StudentViews {
  import opened Wrappers
  import opened Text
  import opened Clock
  import opened Scheduling
  import opened Forms
  import opened Models
  import opened Database
  import PV = ProfessorViews

  // ---------------------------------------------------------------------------
  // join_class
  // ---------------------------------------------------------------------------

  datatype JoinOutcome = FormInvalid(error: JoinCodeError) | InvalidCode | AlreadyEnrolled(classId: nat) | Joined(classId: nat)

  /** The class whose code is exactly `code` (`Class.objects.get(class_code=...)`). */
  function ClassWithCode(classes: seq<ClassRow>, code: string): (r: Option<nat>)
    ensures r.None? <==> forall i :: 0 <= i < |classes| ==> classes[i].code != code
    ensures r.Some? ==> r.value < |classes| && classes[r.value].code == code
  {
    if classes == [] then None
    else match ClassWithCode(classes[..|classes| - 1], code)
      case Some(i) => Some(i)
      case None => if classes[|classes| - 1].code == code then Some(|classes| - 1) else None
  }

  /** With unique codes, the class holding a code is the only one that does. */
  lemma ClassWithCodeUnique(classes: seq<ClassRow>, code: string, id: nat)
    requires CodesValid(classes) && id < |classes| && classes[id].code == code
    ensures ClassWithCode(classes, code) == Some(id)
  {
  }

  /** What `join_class` does with a POSTed code. */
  function JoinAnswer(classes: seq<ClassRow>, enrollments: seq<Enrollment>, student: User, raw: string): JoinOutcome {
    match CleanJoinCode(raw)
    case Err(e) => FormInvalid(e)
    case Ok(code) =>
      match ClassWithCode(classes, code)
      case None => InvalidCode
      case Some(id) => if Enrolled(enrollments, student.id, id) then AlreadyEnrolled(id) else Joined(id)
  }

  /** `join_class` on a POST. */
  method JoinClass(db: Db, student: User, raw: string) returns (out: JoinOutcome)
    requires db.Valid()
    modifies db`enrollments
    ensures db.Valid()
    ensures out == JoinAnswer(old(db.classes), old(db.enrollments), student, raw)
    ensures db.enrollments == if out.Joined? then [Enrollment(student, out.classId)] + old(db.enrollments) else old(db.enrollments)
  {
    var cleaned := CleanJoinCode(raw);
    if cleaned.Err? {
      return FormInvalid(cleaned.error);
    }
    var id := db.FindClassByCode(cleaned.value);
    if id.None? {
      return InvalidCode;
    }
    ClassWithCodeUnique(db.classes, cleaned.value, id.value);
    var existing := db.FindEnrollment(student.id, id.value);
    if existing.Some? {
      return AlreadyEnrolled(id.value);
    }
    db.Enroll(student, id.value);
    return Joined(id.value);
  }

  /** Joining twice with the same code leaves a single enrollment: the second attempt is refused. */
  lemma JoinTwiceAlreadyEnrolled(classes: seq<ClassRow>, enrollments: seq<Enrollment>, student: User, raw: string, again: string)
    requires JoinAnswer(classes, enrollments, student, raw).Joined?
    requires CleanJoinCode(again) == CleanJoinCode(raw)
    ensures var first := JoinAnswer(classes, enrollments, student, raw);
            JoinAnswer(classes, [Enrollment(student, first.classId)] + enrollments, student, again) == AlreadyEnrolled(first.classId)
  {
    var first := JoinAnswer(classes, enrollments, student, raw);
    assert ([Enrollment(student, first.classId)] + enrollments)[0] == Enrollment(student, first.classId);
  }

  /** A code typed in lower case, with spaces around it, still finds its class. */
  lemma JoinAcceptsLowercaseCode(classes: seq<ClassRow>, enrollments: seq<Enrollment>, student: User, id: nat, pad: string)
    requires CodesValid(classes) && id < |classes|
    requires AllSpace(pad, PyStrip)
    ensures var r := JoinAnswer(classes, enrollments, student, pad + Lower(classes[id].code) + pad);
            r == AlreadyEnrolled(id) || r == Joined(id)
  {
    var code := classes[id].code;
    var raw := pad + Lower(code) + pad;
    assert !HasLowercase(code);
    LowerTrimmed(code);
    PaddedTrim(pad, Lower(code));
    UpperLower(code);
    ClassWithCodeUnique(classes, code, id);
  }

  /** Lower-casing a class code leaves nothing to strip. */
  lemma LowerTrimmed(code: string)
    requires IsClassCode(code)
    ensures Trimmed(Lower(code), PyStrip)
  {
    assert IsCodeChar(code[0]) && IsCodeChar(code[5]);
  }

  /** Stripping whitespace padding from both sides of a stripped string gives the string back. */
  lemma PaddedTrim(pad: string, s: string)
    requires AllSpace(pad, PyStrip) && Trimmed(s, PyStrip) && s != []
    ensures Trim(pad + s + pad, PyStrip) == s
  {
    var t := pad + s + pad;
    LeftPadding(pad, s + pad);
    assert pad + s + pad == pad + (s + pad);
    RightPadding(s, pad);
  }

  lemma {:induction false} LeftPadding(pad: string, s: string)
    requires AllSpace(pad, PyStrip) && s != [] && !IsSpace(s[0], PyStrip)
    ensures TrimLeft(pad + s, PyStrip) == s
  {
    if pad != [] {
      assert (pad + s)[1..] == pad[1..] + s;
      LeftPadding(pad[1..], s);
    } else {
      assert pad + s == s;
    }
  }

  lemma {:induction false} RightPadding(s: string, pad: string)
    requires AllSpace(pad, PyStrip) && s != [] && !IsSpace(s[|s| - 1], PyStrip)
    ensures TrimRight(s + pad, PyStrip) == s
  {
    if pad != [] {
      var p := pad[..|pad| - 1];
      assert (s + pad)[..|s + pad| - 1] == s + p;
      RightPadding(s, p);
    } else {
      assert s + pad == s;
    }
  }

  /** After a successful join the student is among the class's students, so their own QR can be matched. */
  lemma JoinedStudentIsListed(classes: seq<ClassRow>, enrollments: seq<Enrollment>, student: User, raw: string)
    requires JoinAnswer(classes, enrollments, student, raw).Joined?
    ensures var id := JoinAnswer(classes, enrollments, student, raw).classId;
            StudentsOf([Enrollment(student, id)] + enrollments, id) == [student] + StudentsOf(enrollments, id)
  {
    var id := JoinAnswer(classes, enrollments, student, raw).classId;
    var en := [Enrollment(student, id)] + enrollments;
    assert en[1..] == enrollments;
  }

  // ---------------------------------------------------------------------------
  // leave_class
  // ---------------------------------------------------------------------------

  datatype LeaveOutcome = NotEnrolled | Left(className: string)

  /** `leave_class`: remove the caller's enrollment in the class; a missing one is a 404. */
  method LeaveClass(db: Db, studentId: nat, classId: nat) returns (out: LeaveOutcome)
    requires db.Valid()
    modifies db`enrollments
    ensures db.Valid()
    ensures out.NotEnrolled? <==> !Enrolled(old(db.enrollments), studentId, classId)
    ensures out.Left? ==> out.className == db.classes[classId].subject
    ensures forall e :: e in db.enrollments <==> e in old(db.enrollments) && !(e.student.id == studentId && e.classId == classId)
    ensures out.NotEnrolled? ==> db.enrollments == old(db.enrollments)
    ensures out.Left? ==>
      exists k ::
        0 <= k < |old(db.enrollments)| &&
        old(db.enrollments)[k].student.id == studentId && old(db.enrollments)[k].classId == classId &&
        db.enrollments == old(db.enrollments)[..k] + old(db.enrollments)[k + 1..]
  {
    var k := db.FindEnrollment(studentId, classId);
    if k.None? {
      return NotEnrolled;
    }
    ghost var before := db.enrollments;
    db.Unenroll(k.value);
    UnenrollRemovesOnlyThat(before, k.value);
    return Left(db.classes[classId].subject);
  }

  /** With one enrollment per (student, class), deleting the one found removes exactly that pair. */
  lemma UnenrollRemovesOnlyThat(en: seq<Enrollment>, k: nat)
    requires EnrollmentsUnique(en) && k < |en|
    ensures forall e :: e in en[..k] + en[k + 1..] <==>
              e in en && !(e.student.id == en[k].student.id && e.classId == en[k].classId)
  {
    var after := en[..k] + en[k + 1..];
    forall e | e in after
      ensures e in en && !(e.student.id == en[k].student.id && e.classId == en[k].classId)
    {
      var i :| 0 <= i < |after| && after[i] == e;
      var j := if i < k then i else i + 1;
      assert en[j] == e && j != k;
    }
    forall e | e in en && !(e.student.id == en[k].student.id && e.classId == en[k].classId)
      ensures e in after
    {
      var j :| 0 <= j < |en| && en[j] == e;
      assert j != k;
      if j < k {
        assert after[j] == e;
      } else {
        assert after[j - 1] == e;
      }
    }
  }

  // ---------------------------------------------------------------------------
  // my_qr_code
  // ---------------------------------------------------------------------------

  /** `request.user.get_full_name() or request.user.username`: the text the student's QR carries. */
  function MyQrCode(u: User): (r: string)
    ensures u.fullName != "" ==> r == u.fullName
    ensures u.fullName == "" ==> r == u.username
  {
    DisplayName(u)
  }

  /**
   * Scanning an enrolled student's own QR finds a student, and the one found
   * has the same name key (it is a different student only when two enrolled
   * students share a name).
   */
  lemma OwnQrFindsNamesake(enrollments: seq<Enrollment>, classId: nat, u: User)
    requires Enrollment(u, classId) in enrollments
    ensures var students := StudentsOf(enrollments, classId);
            var name := PV.ScannedName(PV.Given(MyQrCode(u)));
            var m := PV.FirstMatch(students, name);
            m.Some? && PV.NameKey(students[m.value]) == PV.NameKey(u)
  {
    var students := StudentsOf(enrollments, classId);
    var name := PV.ScannedName(PV.Given(MyQrCode(u)));
    StudentsOfMembers(enrollments, classId, u);
    var i :| 0 <= i < |students| && students[i] == u;
    assert PV.NameMatches(u, name);
    PV.FirstMatchIsFirst(students, name);
  }

  // ---------------------------------------------------------------------------
  // dashboard: grouping loops
  // ---------------------------------------------------------------------------

  /** The dictionary a `for` loop builds with `if key not in d: d[key] = []` then `d[key].append(value)`. */
  function Group<K(==), V>(pairs: seq<(K, V)>): map<K, seq<V>> {
    if pairs == [] then map[]
    else
      var m := Group(pairs[..|pairs| - 1]);
      var (k, v) := pairs[|pairs| - 1];
      m[k := (if k in m then m[k] else []) + [v]]
  }

  /** The values paired with `k`, in order. */
  function ValuesFor<K(==), V>(pairs: seq<(K, V)>, k: K): seq<V> {
    if pairs == [] then []
    else ValuesFor(pairs[..|pairs| - 1], k) + (if pairs[|pairs| - 1].0 == k then [pairs[|pairs| - 1].1] else [])
  }

  /** The grouped dictionary has a key exactly for the keys that occur, holding their values in order. */
  lemma {:induction false} GroupIsFilter<K, V>(pairs: seq<(K, V)>, k: K)
    ensures k in Group(pairs) <==> exists i :: 0 <= i < |pairs| && pairs[i].0 == k
    ensures k in Group(pairs) ==> Group(pairs)[k] == ValuesFor(pairs, k)
    ensures k !in Group(pairs) ==> ValuesFor(pairs, k) == []
  {
    if pairs != [] {
      var init := pairs[..|pairs| - 1];
      GroupIsFilter(init, k);
      assert forall i :: 0 <= i < |init| ==> init[i] == pairs[i];
      if exists i :: 0 <= i < |init| && init[i].0 == k {
        var i :| 0 <= i < |init| && init[i].0 == k;
        assert pairs[i].0 == k;
      }
    }
  }

  /** A value is listed under `k` exactly when some pair of the input is `(k, value)`. */
  lemma {:induction false} ValuesForMembers<K, V>(pairs: seq<(K, V)>, k: K, v: V)
    ensures v in ValuesFor(pairs, k) <==> exists i :: 0 <= i < |pairs| && pairs[i] == (k, v)
  {
    if pairs != [] {
      var init := pairs[..|pairs| - 1];
      ValuesForMembers(init, k, v);
      assert forall i :: 0 <= i < |init| ==> init[i] == pairs[i];
      if exists i :: 0 <= i < |pairs| && pairs[i] == (k, v) {
        var i :| 0 <= i < |pairs| && pairs[i] == (k, v);
        if i < |init| {
          assert init[i] == (k, v);
        }
      }
    }
  }

  /** `if key not in d: d[key] = []` followed by `d[key].append(value)`. */
  method Append<K, V>(d: map<K, seq<V>>, key: K, value: V) returns (r: map<K, seq<V>>)
    ensures r == d[key := (if key in d then d[key] else []) + [value]]
  {
    r := d;
    if key !in r {
      r := r[key := []];
    }
    r := r[key := r[key] + [value]];
  }

  lemma GroupSnoc<K, V>(pairs: seq<(K, V)>, p: (K, V))
    ensures var m := Group(pairs);
            Group(pairs + [p]) == m[p.0 := (if p.0 in m then m[p.0] else []) + [p.1]]
  {
    assert (pairs + [p])[..|pairs|] == pairs;
  }

  datatype ScheduleItem = ScheduleItem(classId: nat, className: string, start: string, end: string)
  datatype CanceledItem = CanceledItem(classId: nat, className: string, scheduleTime: string)
  datatype ExtraItem = ExtraItem(classId: nat, className: string, start: string, end: string, reason: string)

  /** The day key and the entry `dashboard` builds for one schedule row. */
  function ScheduleEntry(classes: seq<ClassRow>, row: ScheduleRow): (Day, ScheduleItem)
    requires row.classId < |classes|
  {
    (row.slot.day, ScheduleItem(row.classId, classes[row.classId].subject, HourMinute(row.slot.start), HourMinute(row.slot.end)))
  }

  /** `record.date.date()`: the stored date-time comes back from the database in UTC, so the key is the UTC date. */
  function CanceledEntry(classes: seq<ClassRow>, r: Record): (int, CanceledItem)
    requires r.classId < |classes|
  {
    (UtcDate(r.date), CanceledItem(r.classId, classes[r.classId].subject, r.scheduleTime))
  }

  /** `extra.reason or ''`: a missing reason is exported as the empty string. */
  function ExtraEntry(classes: seq<ClassRow>, x: ExtraClassRow): (e: (nat, ExtraItem))
    requires x.classId < |classes|
    ensures e.0 == x.date && e.1.classId == x.classId
    ensures e.1.reason == if x.reason.Some? then x.reason.value else ""
  {
    (x.date, ExtraItem(x.classId, classes[x.classId].subject, HourMinute(x.start), HourMinute(x.end),
                       if x.reason.Some? then x.reason.value else ""))
  }

  /** The rows of `Schedule.objects.filter(class_obj__id__in=ids)` in table order, with their dictionary entries. */
  function ScheduleEntries(classes: seq<ClassRow>, rows: seq<ScheduleRow>, ids: seq<nat>): seq<(Day, ScheduleItem)>
    requires forall i :: 0 <= i < |rows| && rows[i].classId in ids ==> rows[i].classId < |classes|
  {
    if rows == [] then []
    else
      var n := |rows| - 1;
      var row := rows[n];
      ScheduleEntries(classes, rows[..n], ids) + (if row.classId in ids then [ScheduleEntry(classes, row)] else [])
  }

  lemma ScheduleEntriesStep(classes: seq<ClassRow>, rows: seq<ScheduleRow>, ids: seq<nat>, i: nat)
    requires forall i :: 0 <= i < |rows| && rows[i].classId in ids ==> rows[i].classId < |classes|
    requires i < |rows|
    ensures var row := rows[i];
            ScheduleEntries(classes, rows[..i + 1], ids) ==
            ScheduleEntries(classes, rows[..i], ids) + (if row.classId in ids then [ScheduleEntry(classes, row)] else [])
  {
    assert rows[..i + 1][..i] == rows[..i];
  }

  /** The `schedules_by_day` loop. */
  method SchedulesByDay(classes: seq<ClassRow>, rows: seq<ScheduleRow>, ids: seq<nat>) returns (m: map<Day, seq<ScheduleItem>>)
    requires forall i :: 0 <= i < |rows| && rows[i].classId in ids ==> rows[i].classId < |classes|
    ensures m == Group(ScheduleEntries(classes, rows, ids))
  {
    m := map[];
    for i := 0 to |rows|
      invariant m == Group(ScheduleEntries(classes, rows[..i], ids))
    {
      var row := rows[i];
      ScheduleEntriesStep(classes, rows, ids, i);
      ghost var before := ScheduleEntries(classes, rows[..i], ids);
      if row.classId in ids {
        var day := row.slot.day;
        var item := ScheduleItem(row.classId, classes[row.classId].subject, HourMinute(row.slot.start), HourMinute(row.slot.end));
        m := Append(m, day, item);
        GroupSnoc(before, ScheduleEntry(classes, row));
      } else {
        assert before + [] == before;
      }
    }
    assert rows[..|rows|] == rows;
  }

  /** The records of `AttendanceRecord.objects.filter(class_obj__id__in=ids, canceled=True)`, with their entries. */
  function CanceledEntries(classes: seq<ClassRow>, rs: seq<Record>, ids: seq<nat>): seq<(int, CanceledItem)>
    requires forall i :: 0 <= i < |rs| && rs[i].classId in ids ==> rs[i].classId < |classes|
  {
    if rs == [] then []
    else
      var n := |rs| - 1;
      var r := rs[n];
      CanceledEntries(classes, rs[..n], ids) + (if r.classId in ids && r.canceled then [CanceledEntry(classes, r)] else [])
  }

  lemma CanceledEntriesStep(classes: seq<ClassRow>, rs: seq<Record>, ids: seq<nat>, i: nat)
    requires forall i :: 0 <= i < |rs| && rs[i].classId in ids ==> rs[i].classId < |classes|
    requires i < |rs|
    ensures var r := rs[i];
            CanceledEntries(classes, rs[..i + 1], ids) ==
            CanceledEntries(classes, rs[..i], ids) + (if r.classId in ids && r.canceled then [CanceledEntry(classes, r)] else [])
  {
    assert rs[..i + 1][..i] == rs[..i];
  }

  /** The `canceled_classes` loop, keyed by the record's calendar date in UTC. */
  method CanceledByDate(classes: seq<ClassRow>, rs: seq<Record>, ids: seq<nat>) returns (m: map<int, seq<CanceledItem>>)
    requires forall i :: 0 <= i < |rs| && rs[i].classId in ids ==> rs[i].classId < |classes|
    ensures m == Group(CanceledEntries(classes, rs, ids))
  {
    m := map[];
    for i := 0 to |rs|
      invariant m == Group(CanceledEntries(classes, rs[..i], ids))
    {
      var r := rs[i];
      CanceledEntriesStep(classes, rs, ids, i);
      ghost var before := CanceledEntries(classes, rs[..i], ids);
      if r.classId in ids && r.canceled {
        var item := CanceledItem(r.classId, classes[r.classId].subject, r.scheduleTime);
        m := Append(m, UtcDate(r.date), item);
        GroupSnoc(before, CanceledEntry(classes, r));
      } else {
        assert before + [] == before;
      }
    }
    assert rs[..|rs|] == rs;
  }

  /** The rows of `ExtraClass.objects.filter(class_obj__id__in=ids)`, with their entries. */
  function ExtraEntries(classes: seq<ClassRow>, xs: seq<ExtraClassRow>, ids: seq<nat>): seq<(nat, ExtraItem)>
    requires forall i :: 0 <= i < |xs| && xs[i].classId in ids ==> xs[i].classId < |classes|
  {
    if xs == [] then []
    else
      var n := |xs| - 1;
      var x := xs[n];
      ExtraEntries(classes, xs[..n], ids) + (if x.classId in ids then [ExtraEntry(classes, x)] else [])
  }

  lemma ExtraEntriesStep(classes: seq<ClassRow>, xs: seq<ExtraClassRow>, ids: seq<nat>, i: nat)
    requires forall i :: 0 <= i < |xs| && xs[i].classId in ids ==> xs[i].classId < |classes|
    requires i < |xs|
    ensures var x := xs[i];
            ExtraEntries(classes, xs[..i + 1], ids) ==
            ExtraEntries(classes, xs[..i], ids) + (if x.classId in ids then [ExtraEntry(classes, x)] else [])
  {
    assert xs[..i + 1][..i] == xs[..i];
  }

  /** The `extra_classes_by_date` loop. */
  method ExtrasByDate(classes: seq<ClassRow>, xs: seq<ExtraClassRow>, ids: seq<nat>) returns (m: map<nat, seq<ExtraItem>>)
    requires forall i :: 0 <= i < |xs| && xs[i].classId in ids ==> xs[i].classId < |classes|
    ensures m == Group(ExtraEntries(classes, xs, ids))
  {
    m := map[];
    for i := 0 to |xs|
      invariant m == Group(ExtraEntries(classes, xs[..i], ids))
    {
      var x := xs[i];
      ExtraEntriesStep(classes, xs, ids, i);
      ghost var before := ExtraEntries(classes, xs[..i], ids);
      if x.classId in ids {
        var reason := if x.reason.Some? then x.reason.value else "";
        var item := ExtraItem(x.classId, classes[x.classId].subject, HourMinute(x.start), HourMinute(x.end), reason);
        m := Append(m, x.date, item);
        GroupSnoc(before, ExtraEntry(classes, x));
      } else {
        assert before + [] == before;
      }
    }
    assert xs[..|xs|] == xs;
  }

  /** The classes the student is enrolled in, newest enrollment first. */
  function EnrolledClassIds(en: seq<Enrollment>, studentId: nat): (ids: seq<nat>)
    ensures forall c :: c in ids <==> exists i :: 0 <= i < |en| && en[i].student.id == studentId && en[i].classId == c
  {
    if en == [] then []
    else
      var rest := EnrolledClassIds(en[1..], studentId);
      assert forall i :: 0 <= i < |en| - 1 ==> en[1..][i] == en[i + 1];
      (if en[0].student.id == studentId then [en[0].classId] else []) + rest
  }

  /** The calendar part of the student `dashboard`. */
  method Dashboard(db: Db, studentId: nat)
    returns (byDay: map<Day, seq<ScheduleItem>>, canceled: map<int, seq<CanceledItem>>, extras: map<nat, seq<ExtraItem>>)
    requires db.Valid()
    ensures var ids := EnrolledClassIds(db.enrollments, studentId);
            byDay == Group(ScheduleEntries(db.classes, db.schedules, ids)) &&
            canceled == Group(CanceledEntries(db.classes, db.records, ids)) &&
            extras == Group(ExtraEntries(db.classes, db.extras, ids))
  {
    var ids := EnrolledClassIds(db.enrollments, studentId);
    byDay := SchedulesByDay(db.classes, db.schedules, ids);
    canceled := CanceledByDate(db.classes, db.records, ids);
    extras := ExtrasByDate(db.classes, db.extras, ids);
  }

  /** The `ScheduleEntries` row `i` contributes, if any. */
  predicate ListsSchedule(classes: seq<ClassRow>, rows: seq<ScheduleRow>, ids: seq<nat>, i: int, p: (Day, ScheduleItem)) {
    0 <= i < |rows| && rows[i].classId in ids && rows[i].classId < |classes| && ScheduleEntry(classes, rows[i]) == p
  }

  /** Each schedule of an enrolled class is listed, under its own day. */
  lemma {:induction false} ScheduleListed(classes: seq<ClassRow>, rows: seq<ScheduleRow>, ids: seq<nat>, i: nat)
    requires forall i :: 0 <= i < |rows| && rows[i].classId in ids ==> rows[i].classId < |classes|
    requires i < |rows| && rows[i].classId in ids
    ensures ScheduleEntry(classes, rows[i]) in ScheduleEntries(classes, rows, ids)
  {
    var n := |rows| - 1;
    ScheduleEntriesStep(classes, rows, ids, n);
    assert rows[..n + 1] == rows;
    if i < n {
      var init := rows[..n];
      assert init[i] == rows[i];
      ScheduleListed(classes, init, ids, i);
    }
  }

  /** Nothing but the schedules of enrolled classes is listed. */
  lemma {:induction false} ScheduleOnlyEnrolled(classes: seq<ClassRow>, rows: seq<ScheduleRow>, ids: seq<nat>, p: (Day, ScheduleItem))
    requires forall i :: 0 <= i < |rows| && rows[i].classId in ids ==> rows[i].classId < |classes|
    requires p in ScheduleEntries(classes, rows, ids)
    ensures exists i :: ListsSchedule(classes, rows, ids, i, p)
  {
    var n := |rows| - 1;
    var init := rows[..n];
    ScheduleEntriesStep(classes, rows, ids, n);
    assert rows[..n + 1] == rows;
    if p in ScheduleEntries(classes, init, ids) {
      ScheduleOnlyEnrolled(classes, init, ids, p);
      var i :| ListsSchedule(classes, init, ids, i, p);
      assert init[i] == rows[i];
      assert ListsSchedule(classes, rows, ids, i, p);
    } else {
      assert ListsSchedule(classes, rows, ids, n, p);
    }
  }

  /** The `CanceledEntries` record `i` contributes, if any. */
  predicate ListsCanceled(classes: seq<ClassRow>, rs: seq<Record>, ids: seq<nat>, i: int, p: (int, CanceledItem)) {
    0 <= i < |rs| && rs[i].classId in ids && rs[i].canceled && rs[i].classId < |classes| && CanceledEntry(classes, rs[i]) == p
  }

  /** Only canceled records of enrolled classes are listed, each under its own date. */
  lemma {:induction false} CanceledEntriesShape(classes: seq<ClassRow>, rs: seq<Record>, ids: seq<nat>, p: (int, CanceledItem))
    requires forall i :: 0 <= i < |rs| && rs[i].classId in ids ==> rs[i].classId < |classes|
    ensures p in CanceledEntries(classes, rs, ids) <==> exists i :: ListsCanceled(classes, rs, ids, i, p)
  {
    if rs != [] {
      var n := |rs| - 1;
      var init := rs[..n];
      CanceledEntriesShape(classes, init, ids, p);
      var tail := if rs[n].classId in ids && rs[n].canceled then [CanceledEntry(classes, rs[n])] else [];
      CanceledEntriesStep(classes, rs, ids, n);
      assert rs[..n + 1] == rs;
      if p in CanceledEntries(classes, init, ids) {
        var i :| ListsCanceled(classes, init, ids, i, p);
        assert init[i] == rs[i];
        assert ListsCanceled(classes, rs, ids, i, p);
      } else if p in tail {
        assert ListsCanceled(classes, rs, ids, n, p);
      } else {
        forall i | 0 <= i < n
          ensures !ListsCanceled(classes, rs, ids, i, p)
        {
          assert init[i] == rs[i];
          assert !ListsCanceled(classes, init, ids, i, p);
        }
        assert !ListsCanceled(classes, rs, ids, n, p);
      }
    }
  }
}
