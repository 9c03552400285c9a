/**
 * The records of the React prototype (`ClassData` and what it holds), shared
 * by App.tsx, ClassCard.tsx, ClassDetailView.tsx and ScheduleManager.tsx, and
 * the distinct-student count that ClassCard (`totalStudents`) and
 * ClassDetailView (`uniqueStudents`) compute with the same `reduce`.
 *
 * A prototype schedule holds its day and times as strings; they come from a
 * day picker and two time inputs, so they are modelled as the parsed values.
 */
module Prototype {
  import opened Wrappers
  import opened Scheduling

  /** One student in an attendance record's `students` array. */
  datatype Scan = Scan(id: string, name: string, studentId: string, timeScanned: string)

  /** The prototype's `AttendanceRecord`. */
  datatype SessionLog = SessionLog(id: string, date: string, scheduleTime: string, students: seq<Scan>)

  datatype Announcement = Announcement(id: string, title: string, content: string, createdAt: string)

  datatype ClassData = ClassData(
    id: string,
    subject: string,
    section: Option<string>,
    room: Option<string>,
    description: Option<string>,
    schedules: seq<Schedule>,
    announcements: seq<Announcement>,
    attendance: seq<SessionLog>)

  /** Every student id that occurs in some record. */
  function SeenIds(records: seq<SessionLog>): set<string> {
    set i, j | 0 <= i < |records| && 0 <= j < |records[i].students| :: records[i].students[j].id
  }

  predicate NoDuplicates(xs: seq<string>) {
    forall i, j :: 0 <= i < j < |xs| ==> xs[i] != xs[j]
  }

  function Elements(xs: seq<string>): set<string> {
    set i | 0 <= i < |xs| :: xs[i]
  }

  lemma ElementsAppend(xs: seq<string>, x: string)
    ensures Elements(xs + [x]) == Elements(xs) + {x}
  {
    var ys := xs + [x];
    assert ys[|xs|] == x;
    forall y | y in Elements(xs)
      ensures y in Elements(ys)
    {
      var i :| 0 <= i < |xs| && xs[i] == y;
      assert ys[i] == y;
    }
  }

  /** A list without repeats has as many elements as its set. */
  lemma {:induction false} DistinctCount(xs: seq<string>)
    requires NoDuplicates(xs)
    ensures |Elements(xs)| == |xs|
  {
    if xs != [] {
      var n := |xs| - 1;
      var init := xs[..n];
      DistinctCount(init);
      assert Elements(xs) == Elements(init) + {xs[n]};
      assert xs[n] !in Elements(init);
    }
  }

  /**
   * `attendance.reduce(...)` pushing each student id not yet in the
   * accumulator, then `.length`: the number of distinct student ids.
   */
  method CountDistinctStudents(records: seq<SessionLog>) returns (n: nat)
    ensures n == |SeenIds(records)|
  {
    var acc: seq<string> := [];
    for i := 0 to |records|
      invariant NoDuplicates(acc)
      invariant Elements(acc) == SeenIds(records[..i])
    {
      var students := records[i].students;
      for j := 0 to |students|
        invariant NoDuplicates(acc)
        invariant Elements(acc) == SeenIds(records[..i]) + Elements(Ids(students[..j]))
      {
        ElementsAppend(Ids(students[..j]), students[j].id);
        assert Ids(students[..j + 1]) == Ids(students[..j]) + [students[j].id];
        if students[j].id !in acc {
          ElementsAppend(acc, students[j].id);
          acc := acc + [students[j].id];
        } else {
          assert students[j].id in Elements(acc);
        }
      }
      assert students[..|students|] == students;
      SeenIdsStep(records, i);
    }
    assert records[..|records|] == records;
    DistinctCount(acc);
    n := |acc|;
  }

  function Ids(scans: seq<Scan>): (r: seq<string>)
    ensures |r| == |scans| && forall k :: 0 <= k < |scans| ==> r[k] == scans[k].id
  {
    seq(|scans|, k requires 0 <= k < |scans| => scans[k].id)
  }

  lemma SeenIdsStep(records: seq<SessionLog>, i: nat)
    requires i < |records|
    ensures SeenIds(records[..i + 1]) == SeenIds(records[..i]) + Elements(Ids(records[i].students))
  {
    var pre, next := records[..i], records[..i + 1];
    forall x | x in SeenIds(next)
      ensures x in SeenIds(pre) + Elements(Ids(records[i].students))
    {
      var a, b :| 0 <= a < |next| && 0 <= b < |next[a].students| && next[a].students[b].id == x;
      if a < i {
        assert pre[a] == next[a];
      } else {
        assert Ids(records[i].students)[b] == x;
      }
    }
    forall x | x in SeenIds(pre) + Elements(Ids(records[i].students))
      ensures x in SeenIds(next)
    {
      if x in SeenIds(pre) {
        var a, b :| 0 <= a < |pre| && 0 <= b < |pre[a].students| && pre[a].students[b].id == x;
        assert next[a] == pre[a];
      } else {
        var b :| 0 <= b < |records[i].students| && Ids(records[i].students)[b] == x;
        assert next[i] == records[i];
      }
    }
  }

  /**
   * Adding a scan to any record adds its student id to the seen set, so the
   * count grows by one for a student not seen before and stays put for one
   * already listed, in that record or another.
   */
  lemma SameStudentCountedOnce(records: seq<SessionLog>, k: nat, s: Scan)
    requires k < |records|
    ensures var grown := records[k := records[k].(students := records[k].students + [s])];
            SeenIds(grown) == SeenIds(records) + {s.id} &&
            |SeenIds(grown)| == if s.id in SeenIds(records) then |SeenIds(records)| else |SeenIds(records)| + 1
  {
    var grown := records[k := records[k].(students := records[k].students + [s])];
    forall x | x in SeenIds(grown)
      ensures x in SeenIds(records) + {s.id}
    {
      var a, b :| 0 <= a < |grown| && 0 <= b < |grown[a].students| && grown[a].students[b].id == x;
      if a != k || b < |records[k].students| {
        assert records[a].students[b] == grown[a].students[b];
      }
    }
    forall x | x in SeenIds(records) + {s.id}
      ensures x in SeenIds(grown)
    {
      if x in SeenIds(records) {
        var a, b :| 0 <= a < |records| && 0 <= b < |records[a].students| && records[a].students[b].id == x;
        assert grown[a].students[b] == records[a].students[b];
      } else {
        assert grown[k].students[|records[k].students|] == s;
      }
    }
  }
}
