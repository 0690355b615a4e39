/**
  Two reports over the same lessons (app/services/institute_attendance.py): one student's
  own lesson history, and the per-student report of a set of groups.
 */
module InstituteReports {
  import opened Wrappers
  import opened InstituteCalendar

  datatype Status = Present | Absent | Late | Excused

  /** A membership with its local joining and leaving times, in seconds. */
  datatype Enrollment = Enrollment(student: nat, group: nat, joined: Option<int>, left: Option<int>)

  /** One institute; a record is keyed by its session's lesson and the student. */
  datatype Institute = Institute(
    tables: Tables,
    groups: map<nat, Group>,
    current: set<nat>,
    enrollments: seq<Enrollment>,
    records: map<(Key, nat), Status>)

  /** Records belong to stored sessions of the institute's groups, as the foreign keys demand. */
  ghost predicate Consistent(i: Institute) {
    forall r :: r in i.records ==> r.0 in i.tables.sessions && r.0.0 in i.groups
  }

  function Moment(day: int, time: nat): int {
    day * 86400 + time
  }

  /** The membership overlapped the lesson's window. */
  predicate Overlaps(e: Enrollment, o: Occurrence) {
    && (e.joined.Some? ==> e.joined.value < Moment(o.key.1, o.end))
    && (e.left.Some? ==> Moment(o.key.1, o.key.2) < e.left.value)
  }

  /** The membership lasted at the moment; it ends as its leaving time is reached. */
  predicate Lasts(e: Enrollment, moment: int) {
    (e.joined.Some? ==> e.joined.value <= moment) && (e.left.Some? ==> moment < e.left.value)
  }

  /** A membership overlaps a lesson exactly if it lasts at some moment of the lesson. */
  lemma OverlapsExactly(e: Enrollment, o: Occurrence)
    requires o.key.2 < o.end && (e.joined.Some? && e.left.Some? ==> e.joined.value < e.left.value)
    ensures Overlaps(e, o) <==>
      exists moment :: Moment(o.key.1, o.key.2) <= moment < Moment(o.key.1, o.end) && Lasts(e, moment)
  {
    var start := Moment(o.key.1, o.key.2);
    var moment := if e.joined.Some? && e.joined.value > start then e.joined.value else start;
    if Overlaps(e, o) {
      assert Lasts(e, moment);
    }
  }

  /** Some membership of the student in the lesson's group overlapped it. */
  predicate Member(es: seq<Enrollment>, student: nat, o: Occurrence) {
    exists n :: 0 <= n < |es| && es[n].student == student && es[n].group == o.key.0 && Overlaps(es[n], o)
  }

  predicate Enrolled(es: seq<Enrollment>, student: nat, group: nat) {
    exists n :: 0 <= n < |es| && es[n].student == student && es[n].group == group
  }

  /** The student's active groups of the current year. */
  function StudentGroups(i: Institute, student: nat): map<nat, Group> {
    map g | g in i.groups && g in i.current && Enrolled(i.enrollments, student, g) :: i.groups[g]
  }

  function StatusOf(i: Institute, student: nat, k: Key): Option<Status> {
    if (k, student) in i.records then Some(i.records[(k, student)]) else None
  }

  predicate IsRecorded(o: Occurrence) {
    o.session.Some? && o.session.value.recorded
  }

  /** A listed lesson counts as recorded exactly if the stored session at its key is. */
  lemma RecordedExactly(i: Institute, groups: map<nat, Group>, k: Key)
    requires Lesson(i.tables, groups, k).Some?
    ensures IsRecorded(Lesson(i.tables, groups, k).value) <==> k in i.tables.sessions && i.tables.sessions[k].recorded
  {
  }

  predicate Started(k: Key, today: int, now: nat) {
    k.1 < today || (k.1 == today && k.2 <= now)
  }

  /** A lesson has started exactly when its starting moment is not to come. */
  lemma StartedExactly(k: Key, today: int, now: nat)
    requires k.2 < 86400 && now < 86400
    ensures Started(k, today, now) <==> Moment(k.1, k.2) <= Moment(today, now)
  {
  }

  // ---- One student's lessons ---------------------------------------------------------

  /** A lesson of the student's groups that has started or was recorded, during a membership. */
  predicate Attendable(i: Institute, groups: map<nat, Group>, student: nat, today: int, now: nat, o: Occurrence) {
    (Started(o.key, today, now) || IsRecorded(o)) && Member(i.enrollments, student, o)
  }

  /** The lessons the student's history shows: attendable ones, and all with a record of theirs. */
  ghost predicate StudentSees(i: Institute, student: nat, start: int, end: int, today: int, now: nat, k: Key) {
    var groups := StudentGroups(i, student);
    || (InRange(groups, start, end, k) && Lesson(i.tables, groups, k).Some?
        && Attendable(i, groups, student, today, now, Lesson(i.tables, groups, k).value))
    || (StatusOf(i, student, k).Some? && start <= k.1 <= end)
  }

  method StudentLessonAttendance(i: Institute, student: nat, start: int, end: int, today: int, now: nat)
    returns (refused: bool, lessons: map<Key, Option<Status>>)
    requires Consistent(i)
    ensures refused <==> start <= end && StudentGroups(i, student) != map[] && end - start > LONGEST_RANGE
    ensures !refused ==> forall k :: k in lessons <==> StudentSees(i, student, start, end, today, now, k)
    ensures !refused ==> forall k :: k in lessons ==> lessons[k] == StatusOf(i, student, k)
    ensures !refused ==> forall k :: k in lessons && lessons[k].None? ==>
      k.0 in i.groups && k.0 in i.current && Enrolled(i.enrollments, student, k.0) && start <= k.1 <= end
  {
    refused, lessons := false, map[];
    if start > end {
      return;
    }
    var groups := StudentGroups(i, student);
    var found := OccurrencesForRange(i.tables, groups, start, end);
    if found.RangeTooLong? {
      return true, map[];
    }
    lessons := AttendableLessons(i, groups, student, today, now, found.list);
    AttendableKeys(i, groups, student, start, end, today, now, found.list);
    var mine := map r | r in i.records && r.1 == student && start <= r.0.1 <= end :: r.0 := Some(i.records[r]);
    lessons := lessons + mine;
  }

  method AttendableLessons(i: Institute, groups: map<nat, Group>, student: nat, today: int, now: nat, list: seq<Occurrence>)
    returns (lessons: map<Key, Option<Status>>)
    ensures forall k :: k in lessons ==> lessons[k] == None
    ensures forall k :: k in lessons <==>
      exists m :: 0 <= m < |list| && list[m].key == k && Attendable(i, groups, student, today, now, list[m])
  {
    lessons := map[];
    for n := 0 to |list|
      invariant forall k :: k in lessons ==> lessons[k] == None
      invariant forall k :: k in lessons <==>
        exists m :: 0 <= m < n && list[m].key == k && Attendable(i, groups, student, today, now, list[m])
    {
      if Attendable(i, groups, student, today, now, list[n]) {
        lessons := lessons[list[n].key := None];
      }
    }
  }

  /** The attendable listed lessons, by key. */
  lemma AttendableKeys(i: Institute, groups: map<nat, Group>, student: nat, start: int, end: int, today: int, now: nat,
                       list: seq<Occurrence>)
    requires groups != map[] ==> IsCalendar(i.tables, groups, start, end, list)
    requires groups == map[] ==> list == []
    ensures forall k ::
      (exists m :: 0 <= m < |list| && list[m].key == k && Attendable(i, groups, student, today, now, list[m])) <==>
      (InRange(groups, start, end, k) && Lesson(i.tables, groups, k).Some?
       && Attendable(i, groups, student, today, now, Lesson(i.tables, groups, k).value))
  {
    forall m | 0 <= m < |list| ensures
      InRange(groups, start, end, list[m].key) && Lesson(i.tables, groups, list[m].key) == Some(list[m])
    {
      assert list[m] in list;
    }
    forall k | InRange(groups, start, end, k) && Lesson(i.tables, groups, k).Some?
      ensures exists m :: 0 <= m < |list| && list[m].key == k && list[m] == Lesson(i.tables, groups, k).value
    {
      assert Listed(list, Lesson(i.tables, groups, k).value);
      var m :| 0 <= m < |list| && list[m] == Lesson(i.tables, groups, k).value;
      assert list[m].key == k;
    }
  }

  // ---- The report over groups ----------------------------------------------------------

  datatype Row = Row(student: nat, key: Key, status: Option<Status>)

  /** A lesson of the groups up to today, or recorded ahead, for its members and everyone with a record. */
  ghost predicate Reported(i: Institute, groups: map<nat, Group>, start: int, end: int, today: int, row: Row) {
    var k := row.key;
    && InRange(groups, start, end, k) && Lesson(i.tables, groups, k).Some?
    && (var o := Lesson(i.tables, groups, k).value;
        && (k.1 <= today || IsRecorded(o))
        && (Member(i.enrollments, row.student, o) || StatusOf(i, row.student, k).Some?))
    && row.status == StatusOf(i, row.student, k)
  }

  predicate HasStudent(rows: seq<Row>, student: nat) {
    exists n :: 0 <= n < |rows| && rows[n].student == student
  }

  ghost predicate Distinct(rows: seq<Row>) {
    forall m, n :: 0 <= m < n < |rows| ==> rows[m].student != rows[n].student || rows[m].key != rows[n].key
  }

  /** All rows are about one lesson, one per student, with the students' own statuses. */
  ghost predicate RowsOf(i: Institute, o: Occurrence, rows: seq<Row>) {
    Distinct(rows) && forall n :: 0 <= n < |rows| ==>
      rows[n].key == o.key && rows[n].status == StatusOf(i, rows[n].student, o.key)
  }

  lemma OneMoreRow(i: Institute, o: Occurrence, rows: seq<Row>, student: nat)
    requires RowsOf(i, o, rows) && !HasStudent(rows, student)
    ensures var more := rows + [Row(student, o.key, StatusOf(i, student, o.key))];
      RowsOf(i, o, more) && forall x :: HasStudent(more, x) <==> HasStudent(rows, x) || x == student
  {
    var row := Row(student, o.key, StatusOf(i, student, o.key));
    var more := rows + [row];
    forall x ensures HasStudent(more, x) <==> HasStudent(rows, x) || x == student {
      if HasStudent(rows, x) {
        var n :| 0 <= n < |rows| && rows[n].student == x;
        assert more[n].student == x;
      }
      assert more[|rows|] == row;
    }
  }

  method LessonRows(i: Institute, o: Occurrence) returns (rows: seq<Row>)
    ensures RowsOf(i, o, rows)
    ensures forall x :: HasStudent(rows, x) <==> Member(i.enrollments, x, o) || StatusOf(i, x, o.key).Some?
  {
    rows := [];
    var es := i.enrollments;
    for n := 0 to |es|
      invariant RowsOf(i, o, rows)
      invariant forall x :: HasStudent(rows, x) <==> Member(es[..n], x, o)
    {
      MemberLonger(es, n, o);
      if es[n].group == o.key.0 && !HasStudent(rows, es[n].student) && Overlaps(es[n], o) {
        OneMoreRow(i, o, rows, es[n].student);
        rows := rows + [Row(es[n].student, o.key, StatusOf(i, es[n].student, o.key))];
      }
    }
    assert es[..|es|] == es;
    var recs := set r | r in i.records && r.0 == o.key :: r.1;
    var rest := recs;
    while rest != {}
      invariant rest <= recs && RowsOf(i, o, rows)
      invariant forall x :: HasStudent(rows, x) <==> Member(es, x, o) || x in recs - rest
      decreases rest
    {
      var x :| x in rest;
      if !HasStudent(rows, x) {
        OneMoreRow(i, o, rows, x);
        rows := rows + [Row(x, o.key, StatusOf(i, x, o.key))];
      }
      rest := rest - {x};
    }
    forall x ensures x in recs <==> StatusOf(i, x, o.key).Some? {
    }
  }

  lemma MemberLonger(es: seq<Enrollment>, n: nat, o: Occurrence)
    requires n < |es|
    ensures forall x :: Member(es[..n + 1], x, o) <==>
      Member(es[..n], x, o) || (x == es[n].student && es[n].group == o.key.0 && Overlaps(es[n], o))
  {
    forall x ensures Member(es[..n + 1], x, o) <==>
      Member(es[..n], x, o) || (x == es[n].student && es[n].group == o.key.0 && Overlaps(es[n], o))
    {
      if Member(es[..n], x, o) {
        var m :| 0 <= m < n && es[..n][m].student == x && es[..n][m].group == o.key.0 && Overlaps(es[..n][m], o);
        assert es[..n + 1][m] == es[..n][m];
      }
      if Member(es[..n + 1], x, o) {
        var m :| 0 <= m <= n && es[..n + 1][m].student == x && es[..n + 1][m].group == o.key.0
          && Overlaps(es[..n + 1][m], o);
        assert m < n ==> es[..n][m] == es[..n + 1][m];
      }
      assert es[..n + 1][n] == es[n];
    }
  }

  function Count(rows: seq<Row>, status: Option<Status>): nat {
    if rows == [] then 0
    else Count(rows[..|rows| - 1], status) + if rows[|rows| - 1].status == status then 1 else 0
  }

  lemma {:induction false} CountConcat(a: seq<Row>, b: seq<Row>, status: Option<Status>)
    ensures Count(a + b, status) == Count(a, status) + Count(b, status)
    decreases |b|
  {
    if b == [] {
      assert a + b == a;
    } else {
      assert (a + b)[..|a + b| - 1] == a + b[..|b| - 1];
      CountConcat(a, b[..|b| - 1], status);
    }
  }

  /** The rows of the first n listed lessons that are shown. */
  ghost predicate Collected(i: Institute, list: seq<Occurrence>, n: nat, today: int, rows: seq<Row>) {
    && Distinct(rows)
    && (forall row :: row in rows <==> exists m :: 0 <= m < n <= |list| && RowOf(i, list[m], today, row))
  }

  ghost predicate RowOf(i: Institute, o: Occurrence, today: int, row: Row) {
    && row.key == o.key && (o.key.1 <= today || IsRecorded(o)) && row.status == StatusOf(i, row.student, o.key)
    && (Member(i.enrollments, row.student, o) || StatusOf(i, row.student, o.key).Some?)
  }

  lemma CollectMore(i: Institute, list: seq<Occurrence>, n: nat, today: int, rows: seq<Row>, more: seq<Row>)
    requires n < |list| && DistinctKeys(list) && Collected(i, list, n, today, rows)
    requires if list[n].key.1 <= today || IsRecorded(list[n]) then
        RowsOf(i, list[n], more)
        && forall x :: HasStudent(more, x) <==> Member(i.enrollments, x, list[n]) || StatusOf(i, x, list[n].key).Some?
      else more == []
    ensures Collected(i, list, n + 1, today, rows + more)
  {
    forall row ensures row in more <==> RowOf(i, list[n], today, row) {
      if row in more {
        var m :| 0 <= m < |more| && more[m] == row;
        assert HasStudent(more, row.student);
      }
      if RowOf(i, list[n], today, row) {
        assert HasStudent(more, row.student);
        var m :| 0 <= m < |more| && more[m].student == row.student;
        assert more[m] == row;
      }
    }
    forall a | 0 <= a < |rows| ensures rows[a].key != list[n].key {
      assert rows[a] in rows;
      var m :| 0 <= m < n && RowOf(i, list[m], today, rows[a]);
    }
    assert forall b :: 0 <= b < |more| ==> more[b].key == list[n].key;
  }

  method AttendanceReport(i: Institute, groups: map<nat, Group>, start: int, end: int, today: int)
    returns (refused: bool, rows: seq<Row>, totals: map<Option<Status>, nat>)
    ensures refused <==> start <= end && groups != map[] && end - start > LONGEST_RANGE
    ensures !refused ==> Distinct(rows)
    ensures !refused ==> forall row :: row in rows <==> Reported(i, groups, start, end, today, row)
    ensures !refused ==> forall s :: s in totals && totals[s] == Count(rows, s)
  {
    refused, rows := false, [];
    totals := map[None := 0, Some(Present) := 0, Some(Absent) := 0, Some(Late) := 0, Some(Excused) := 0];
    forall s: Option<Status> ensures s in totals && totals[s] == 0 {
      match s
      case None =>
      case Some(x) => match x case Present => case Absent => case Late => case Excused =>
    }
    if groups == map[] || start > end {
      return;
    }
    var found := OccurrencesForRange(i.tables, groups, start, end);
    if found.RangeTooLong? {
      return true, [], totals;
    }
    var list := found.list;
    for n := 0 to |list|
      invariant Collected(i, list, n, today, rows)
      invariant forall s :: s in totals && totals[s] == Count(rows, s)
    {
      var more := [];
      if list[n].key.1 <= today || IsRecorded(list[n]) {
        more := LessonRows(i, list[n]);
      }
      CollectMore(i, list, n, today, rows, more);
      totals := Tally(totals, rows, more);
      rows := rows + more;
    }
    ReportedRows(i, groups, start, end, today, list, rows);
  }

  method Tally(totals: map<Option<Status>, nat>, ghost rows: seq<Row>, more: seq<Row>) returns (r: map<Option<Status>, nat>)
    requires forall s :: s in totals && totals[s] == Count(rows, s)
    ensures forall s :: s in r && r[s] == Count(rows + more, s)
  {
    r := totals;
    for n := 0 to |more|
      invariant forall s :: s in r && r[s] == Count(rows, s) + Count(more[..n], s)
    {
      assert more[..n + 1][..n] == more[..n];
      r := r[more[n].status := r[more[n].status] + 1];
    }
    assert more[..|more|] == more;
    forall s ensures Count(rows + more, s) == Count(rows, s) + Count(more, s) {
      CountConcat(rows, more, s);
    }
  }

  lemma ReportedRows(i: Institute, groups: map<nat, Group>, start: int, end: int, today: int, list: seq<Occurrence>, rows: seq<Row>)
    requires IsCalendar(i.tables, groups, start, end, list) && Collected(i, list, |list|, today, rows)
    ensures forall row :: row in rows <==> Reported(i, groups, start, end, today, row)
  {
    forall row ensures row in rows <==> Reported(i, groups, start, end, today, row) {
      if row in rows {
        var m :| 0 <= m < |list| && RowOf(i, list[m], today, row);
        assert list[m] in list;
      }
      if Reported(i, groups, start, end, today, row) {
        var o := Lesson(i.tables, groups, row.key).value;
        assert Listed(list, o);
        var m :| 0 <= m < |list| && list[m] == o;
        assert RowOf(i, list[m], today, row);
      }
    }
  }

  // ---- The two reports agree -----------------------------------------------------------

  /** Today's lesson that has not begun and nobody recorded: the report lists it, the student's history does not. */
  predicate LaterToday(i: Institute, student: nat, today: int, now: nat, o: Occurrence) {
    o.key.1 == today && o.key.2 > now && !IsRecorded(o) && StatusOf(i, student, o.key).None?
  }

  /** A session that holds a record is marked recorded, as submitting attendance leaves it. */
  ghost predicate RecordsAreMarked(i: Institute) {
    forall r :: r in i.records ==> r.0 in i.tables.sessions && i.tables.sessions[r.0].recorded
  }

  /**
    Over the student's own groups the two reports list the same lessons with the same
    statuses, orphaned sessions and ended memberships included, when the range ends before
    today; otherwise they differ exactly in today's lessons that are still to come.
   */
  lemma ReportsAgree(i: Institute, student: nat, start: int, end: int, today: int, now: nat, k: Key)
    requires Consistent(i) && k.0 in StudentGroups(i, student)
    requires end < today || RecordsAreMarked(i)
    ensures var groups := StudentGroups(i, student);
      var reported := Reported(i, groups, start, end, today, Row(student, k, StatusOf(i, student, k)));
      && (end < today ==> (StudentSees(i, student, start, end, today, now, k) <==> reported))
      && (StudentSees(i, student, start, end, today, now, k) <==>
            reported && !LaterToday(i, student, today, now, Lesson(i.tables, groups, k).value))
  {
    var groups := StudentGroups(i, student);
    if StatusOf(i, student, k).Some? {
      assert (k, student) in i.records && k in i.tables.sessions;
      assert Lesson(i.tables, groups, k).Some? && Lesson(i.tables, groups, k).value.session == Some(i.tables.sessions[k]);
    }
  }
}
