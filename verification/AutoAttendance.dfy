/**
  The student side of the absence scheduler (app/services/auto_attendance.py): which
  students each producer of absent rows is responsible for, what one tick leaves behind,
  and whether any day can be missed between ticks.
 */
module AutoAttendance {
  import opened Wrappers

  // ---- Who belongs to which shift --------------------------------------------------

  datatype Section = Section(shift: Option<nat>, grade: Option<nat>)

  datatype Student = Student(active: bool, section: Option<nat>)

  /** One school: its sections, the shift of each grade, the active shifts and the students. */
  datatype School = School(
    sections: map<nat, Section>,
    gradeShift: map<nat, Option<nat>>,
    activeShifts: set<nat>,
    students: map<nat, Student>)

  /** A student's own shift, resolved one by one: the section's, else its grade's, if it is active. */
  function EffectiveShift(s: School, student: Student): Option<nat> {
    if student.section.None? || student.section.value !in s.sections then None
    else
      var section := s.sections[student.section.value];
      var shift :=
        if section.shift.Some? then section.shift
        else if section.grade.Some? && section.grade.value in s.gradeShift then s.gradeShift[section.grade.value]
        else None;
      if shift.Some? && shift.value in s.activeShifts then shift else None
  }

  function GradesOf(s: School, shifts: set<nat>): set<nat> {
    set g | g in s.gradeShift && s.gradeShift[g].Some? && s.gradeShift[g].value in shifts
  }

  /** The sections of some shifts: assigned to one, or unassigned under a grade of one. */
  function SectionsOf(s: School, shifts: set<nat>): set<nat> {
    (set x | x in s.sections && s.sections[x].shift.Some? && s.sections[x].shift.value in shifts)
    + (set x | x in s.sections && s.sections[x].shift.None? && s.sections[x].grade.Some?
               && s.sections[x].grade.value in GradesOf(s, shifts))
  }

  /** The students one shift's producer is responsible for. */
  function ShiftStudents(s: School, shift: nat): set<nat> {
    set x | x in s.students && s.students[x].active && s.students[x].section.Some?
            && s.students[x].section.value in SectionsOf(s, {shift})
  }

  /** The students of the fallback producer. */
  function Shiftless(s: School): set<nat> {
    var covered := SectionsOf(s, s.activeShifts);
    set x | x in s.students && s.students[x].active
            && (s.students[x].section.None? || s.students[x].section.value !in covered)
  }

  function ActiveStudents(s: School): set<nat> {
    set x | x in s.students && s.students[x].active
  }

  lemma SectionsByShift(s: School, shifts: set<nat>, x: nat)
    requires x in s.sections && shifts <= s.activeShifts
    ensures x in SectionsOf(s, shifts) <==>
      var e := EffectiveShift(s, Student(true, Some(x))); e.Some? && e.value in shifts
  {
  }

  /** The bulk lookups agree with the student's own resolution... */
  lemma ProducersFollowEffectiveShift(s: School, x: nat)
    requires x in ActiveStudents(s)
    ensures forall shift :: shift in s.activeShifts ==>
      (x in ShiftStudents(s, shift) <==> EffectiveShift(s, s.students[x]) == Some(shift))
    ensures x in Shiftless(s) <==> EffectiveShift(s, s.students[x]) == None
  {
    var section := s.students[x].section;
    if section.Some? && section.value in s.sections {
      SectionsByShift(s, s.activeShifts, section.value);
      forall shift | shift in s.activeShifts
        ensures section.value in SectionsOf(s, {shift}) <==> EffectiveShift(s, s.students[x]) == Some(shift)
      {
        SectionsByShift(s, {shift}, section.value);
      }
    }
  }

  /** ...so the shifts and the fallback split the active students: all covered, none twice. */
  lemma ProducersPartitionTheSchool(s: School)
    ensures forall a, b :: a in s.activeShifts && b in s.activeShifts && a != b ==>
      ShiftStudents(s, a) !! ShiftStudents(s, b)
    ensures forall a :: a in s.activeShifts ==> ShiftStudents(s, a) !! Shiftless(s)
    ensures forall x :: x in ActiveStudents(s) <==>
      x in Shiftless(s) || exists a :: a in s.activeShifts && x in ShiftStudents(s, a)
  {
    forall a, b | a in s.activeShifts && b in s.activeShifts && a != b
      ensures ShiftStudents(s, a) !! ShiftStudents(s, b)
    {
      forall x | x in ShiftStudents(s, a) ensures x !in ShiftStudents(s, b) {
        ProducersFollowEffectiveShift(s, x);
      }
    }
    forall a | a in s.activeShifts ensures ShiftStudents(s, a) !! Shiftless(s) {
      forall x | x in ShiftStudents(s, a) ensures x !in Shiftless(s) {
        ProducersFollowEffectiveShift(s, x);
      }
    }
    forall x | x in ActiveStudents(s)
      ensures x in Shiftless(s) || exists a :: a in s.activeShifts && x in ShiftStudents(s, a)
    {
      ProducersFollowEffectiveShift(s, x);
      if EffectiveShift(s, s.students[x]).Some? {
        assert x in ShiftStudents(s, EffectiveShift(s, s.students[x]).value);
      }
    }
  }

  // ---- One tick in shift mode ----------------------------------------------------------

  /** A day row as far as this producer is concerned; other writers' rows are kept as they are. */
  datatype DayRow = AutoAbsent(shift: Option<nat>) | Other(id: nat)

  type Rows = map<nat, DayRow>

  /** The school's times and mode; shiftCutoff is shared by all shifts, cutoff is the default. */
  datatype Times = Times(institute: bool, shiftCutoff: Option<nat>, cutoff: Option<nat>)

  function Marked(rows: Rows, students: set<nat>, row: DayRow): Rows {
    map x | x in rows.Keys + students :: if x in rows then rows[x] else row
  }

  /** The producer that is due for the student, if one is. */
  function DueRow(s: School, t: Times, now: nat, conflicts: set<Option<nat>>, x: nat): Option<DayRow>
    requires x in s.students
  {
    var e := EffectiveShift(s, s.students[x]);
    var cutoff := if e.Some? then t.shiftCutoff else t.cutoff;
    if s.students[x].active && !t.institute && cutoff.Some? && now >= cutoff.value && e !in conflicts
    then Some(AutoAbsent(e)) else None
  }

  /** After a tick every student keeps the row they had, or has the row of the producer due for them. */
  ghost predicate Ticked(s: School, t: Times, now: nat, conflicts: set<Option<nat>>, before: Rows, after: Rows) {
    && (forall x :: x in before ==> x in after && after[x] == before[x])
    && (forall x :: x in after && x !in before ==> x in s.students && DueRow(s, t, now, conflicts, x) == Some(after[x]))
    && (forall x :: x in s.students && x !in before && DueRow(s, t, now, conflicts, x).Some? ==> x in after)
  }

  /** Part of a tick: only the producers in `done` have run. */
  ghost predicate Progress(s: School, t: Times, now: nat, conflicts: set<Option<nat>>, before: Rows, rows: Rows, done: set<Option<nat>>) {
    && (forall x :: x in before ==> x in rows && rows[x] == before[x])
    && (forall x :: x in rows && x !in before ==>
          x in s.students && DueRow(s, t, now, conflicts, x) == Some(rows[x]) && EffectiveShift(s, s.students[x]) in done)
    && (forall x :: x in s.students && EffectiveShift(s, s.students[x]) in done && x !in before ==>
          DueRow(s, t, now, conflicts, x).Some? ==> x in rows)
  }

  /** Exactly the active students of the shift, or without one, who had no row gain an absence, if that is due. */
  ghost predicate Gains(s: School, before: Rows, after: Rows, who: Option<nat>, due: bool) {
    && (forall x :: x in before ==> x in after && after[x] == before[x])
    && (forall x :: x !in before ==>
          (x in after <==> due && x in ActiveStudents(s) && EffectiveShift(s, s.students[x]) == who))
    && (forall x :: x in after && x !in before ==> after[x] == AutoAbsent(who))
  }

  /** Running one producer, or finding that it is not due, extends the part that is done. */
  lemma ProducerAdds(s: School, t: Times, now: nat, conflicts: set<Option<nat>>, before: Rows, rows: Rows,
                     done: set<Option<nat>>, who: Option<nat>, after: Rows, ran: bool)
    requires Progress(s, t, now, conflicts, before, rows, done) && Gains(s, rows, after, who, ran)
    requires var cutoff := if who.Some? then t.shiftCutoff else t.cutoff;
      ran <==> !t.institute && who !in conflicts && cutoff.Some? && cutoff.value <= now
    ensures Progress(s, t, now, conflicts, before, after, done + {who})
  {
    forall x | x in s.students && EffectiveShift(s, s.students[x]) == who
      ensures DueRow(s, t, now, conflicts, x) == if ran && x in ActiveStudents(s) then Some(AutoAbsent(who)) else None
    {
    }
  }

  lemma ShiftStudentsAreThose(s: School, shift: nat)
    requires shift in s.activeShifts
    ensures forall x :: x in ShiftStudents(s, shift) <==>
      x in ActiveStudents(s) && EffectiveShift(s, s.students[x]) == Some(shift)
  {
    forall x | x in ActiveStudents(s)
      ensures x in ShiftStudents(s, shift) <==> EffectiveShift(s, s.students[x]) == Some(shift)
    {
      ProducersFollowEffectiveShift(s, x);
    }
  }

  lemma ShiftlessAreThose(s: School)
    ensures forall x :: x in Shiftless(s) <==> x in ActiveStudents(s) && EffectiveShift(s, s.students[x]) == None
  {
    forall x | x in ActiveStudents(s) ensures x in Shiftless(s) <==> EffectiveShift(s, s.students[x]) == None {
      ProducersFollowEffectiveShift(s, x);
    }
  }

  lemma AllProducersDone(s: School, t: Times, now: nat, conflicts: set<Option<nat>>, before: Rows, rows: Rows, done: set<Option<nat>>)
    requires Progress(s, t, now, conflicts, before, rows, done) && None in done
    requires t.shiftCutoff.Some? ==> forall a :: a in s.activeShifts ==> Some(a) in done
    ensures Ticked(s, t, now, conflicts, before, rows)
  {
    forall x | x in s.students && x !in before && DueRow(s, t, now, conflicts, x).Some? ensures x in rows {
      assert EffectiveShift(s, s.students[x]) in done;
    }
  }

  class Scheduler {
    var rows: Rows

    /** The producer of one shift; its single commit fails as a whole on a conflict. */
    method RunForShift(s: School, t: Times, shift: nat, conflict: bool) returns (count: nat)
      modifies this
      ensures rows == if t.institute || conflict then old(rows) else Marked(old(rows), ShiftStudents(s, shift), AutoAbsent(Some(shift)))
      ensures count == |ShiftStudents(s, shift) - old(rows).Keys| || (count == 0 && rows == old(rows))
      ensures shift in s.activeShifts ==> Gains(s, old(rows), rows, Some(shift), !t.institute && !conflict)
    {
      if shift in s.activeShifts {
        ShiftStudentsAreThose(s, shift);
      }
      var students := ShiftStudents(s, shift);
      var unmarked := students - rows.Keys;
      if t.institute || conflict || unmarked == {} {
        if unmarked == {} {
          assert forall x :: x in students ==> x in unmarked || x in rows.Keys;
          assert rows.Keys + students == rows.Keys;
        }
        return 0;
      }
      rows := Marked(rows, students, AutoAbsent(Some(shift)));
      count := |unmarked|;
    }

    /** The fallback for students without an active shift; `now` is None when an earlier day is caught up. */
    method RunShiftless(s: School, t: Times, now: Option<nat>, conflict: bool)
      modifies this
      ensures Gains(s, old(rows), rows, None,
                    !t.institute && !conflict && t.cutoff.Some? && (now.Some? ==> t.cutoff.value <= now.value))
    {
      ShiftlessAreThose(s);
      if t.institute || t.cutoff.None? || (now.Some? && now.value < t.cutoff.value) || conflict {
        return;
      }
      rows := Marked(rows, Shiftless(s), AutoAbsent(None));
    }

    /** A tick on a school day with an active year. */
    method CheckSchoolShifts(s: School, t: Times, shifts: seq<nat>, now: nat, conflicts: set<Option<nat>>)
      requires (forall a :: a in shifts <==> a in s.activeShifts)
      modifies this
      ensures shifts == [] ==> rows == old(rows)
      ensures shifts != [] ==> Ticked(s, t, now, conflicts, old(rows), rows)
    {
      if shifts == [] {
        return;
      }
      var due := if t.shiftCutoff.None? then [] else shifts;
      ghost var done: set<Option<nat>> := {};
      for i := 0 to |due|
        invariant Progress(s, t, now, conflicts, old(rows), rows, done)
        invariant forall k :: 0 <= k < i ==> Some(due[k]) in done
      {
        CheckShift(s, t, due[i], now, conflicts, old(rows), done);
        done := done + {Some(due[i])};
      }
      ghost var before := rows;
      RunShiftless(s, t, Some(now), None in conflicts);
      ProducerAdds(s, t, now, conflicts, old(rows), before, done, None, rows,
                   !t.institute && None !in conflicts && t.cutoff.Some? && t.cutoff.value <= now);
      AllProducersDone(s, t, now, conflicts, old(rows), rows, done + {None});
    }

    /** The loop body of a tick: one shift, if the shared cutoff has passed. */
    method CheckShift(s: School, t: Times, shift: nat, now: nat, conflicts: set<Option<nat>>,
                      ghost before: Rows, ghost done: set<Option<nat>>)
      requires t.shiftCutoff.Some? && shift in s.activeShifts
      requires Progress(s, t, now, conflicts, before, rows, done)
      modifies this
      ensures Progress(s, t, now, conflicts, before, rows, done + {Some(shift)})
    {
      ghost var was := rows;
      if now >= t.shiftCutoff.value {
        var _ := RunForShift(s, t, shift, Some(shift) in conflicts);
      }
      ProducerAdds(s, t, now, conflicts, before, was, done, Some(shift), rows,
                   now >= t.shiftCutoff.value && !t.institute && Some(shift) !in conflicts);
    }
  }

  /** A conflict-free tick past both cutoffs leaves every active student with a row, and the next one changes nothing. */
  lemma TickCoversTheSchool(s: School, t: Times, now: nat, later: nat, before: Rows, after: Rows, again: Rows)
    requires !t.institute && t.shiftCutoff.Some? && t.cutoff.Some? && t.shiftCutoff.value <= now && t.cutoff.value <= now
    requires Ticked(s, t, now, {}, before, after) && Ticked(s, t, later, {}, after, again)
    ensures ActiveStudents(s) <= after.Keys
    ensures forall x :: x in after && x !in before ==>
      x in ActiveStudents(s) && after[x] == AutoAbsent(EffectiveShift(s, s.students[x]))
    ensures again == after
  {
    forall x | x in ActiveStudents(s) ensures x in after {
      assert DueRow(s, t, now, {}, x).Some? || x in before;
    }
    forall x | x in s.students && DueRow(s, t, later, {}, x).Some? ensures x in after {
      assert x in ActiveStudents(s);
    }
  }

  // ---- No day is missed between ticks ---------------------------------------------------------

  const DAY := 86400
  const HOUR := 3600

  datatype Mode = Standard | Shifts | Staff

  /** What the checks read: the cutoff in force for the mode, and which days are no school days. */
  datatype Calendar = Calendar(mode: Mode, cutoff: int, holiday: int -> bool)

  /** A tick at time now on a day runs the absence producer for the day before, in the first hour. */
  function CatchUp(c: Calendar, day: int, now: int): set<int> {
    if now < HOUR && !c.holiday(day - 1) then {day - 1} else {}
  }

  /** The days a tick runs the producer for, with an active year and, in shift mode, an active shift. */
  function Runs(c: Calendar, day: int, now: int): set<int> {
    match c.mode
    case Standard =>
      if now < c.cutoff then CatchUp(c, day, now)
      else if c.holiday(day) then {}
      else {day} + CatchUp(c, day, now)
    case Shifts =>
      if c.holiday(day) then CatchUp(c, day, now)
      else (if now < c.cutoff then {} else {day}) + CatchUp(c, day, now)
    case Staff => if now < c.cutoff || c.holiday(day) then {} else {day}
  }

  /**
    What a tick runs: its own day once the cutoff has passed, the day before in its first hour
    unless staff, never a holiday and no other day.  In standard mode a holiday also keeps the
    day before from being caught up from the cutoff on.
   */
  lemma RunsExactly(c: Calendar, day: int, now: int, on: int)
    ensures on in Runs(c, day, now) <==>
      && !c.holiday(on)
      && ((on == day && c.cutoff <= now)
          || (on + 1 == day && now < 3600 && c.mode != Staff && !(c.mode == Standard && c.cutoff <= now && c.holiday(day))))
  {
  }

  /** Absolute times of the ticks: each at most `gap` seconds after the one before. */
  ghost predicate Schedule(tick: nat -> int, gap: int) {
    forall i: nat :: tick(i) < tick(i + 1) <= tick(i) + gap
  }

  ghost predicate Handled(c: Calendar, tick: nat -> int, day: int) {
    exists i: nat :: day in Runs(c, tick(i) / DAY, tick(i) % DAY)
  }

  /** Whenever the ticks start before a school day's cutoff, that day gets its run. */
  ghost predicate MissesNoDay(mode: Mode, cutoff: int, gap: int) {
    forall tick: nat -> int, holiday: int -> bool, day: int ::
      Schedule(tick, gap) && tick(0) < day * DAY + cutoff && !holiday(day) ==>
        Handled(Calendar(mode, cutoff, holiday), tick, day)
  }

  /** The largest gap between ticks that never misses a day. */
  function SafeGap(mode: Mode, cutoff: int): int {
    match mode
    case Standard => if cutoff < HOUR then DAY else DAY + HOUR - cutoff
    case Shifts => DAY + HOUR - cutoff
    case Staff => DAY - cutoff
  }

  lemma LastTickBefore(tick: nat -> int, gap: int, x: int, from: nat) returns (i: nat)
    requires Schedule(tick, gap) && tick(from) < x
    ensures tick(i) < x <= tick(i + 1) <= tick(i) + gap
    decreases x - tick(from)
  {
    if tick(from + 1) < x {
      i := LastTickBefore(tick, gap, x, from + 1);
    } else {
      i := from;
    }
  }

  lemma DivisionOfDay(day: int, now: int)
    requires 0 <= now < DAY
    ensures (day * DAY + now) / DAY == day && (day * DAY + now) % DAY == now
  {
  }

  lemma ShortGapsAreSafe(mode: Mode, cutoff: int, gap: int)
    requires 0 <= cutoff < DAY && gap <= SafeGap(mode, cutoff)
    ensures MissesNoDay(mode, cutoff, gap)
  {
    forall tick: nat -> int, holiday: int -> bool, day: int
      | Schedule(tick, gap) && tick(0) < day * DAY + cutoff && !holiday(day)
      ensures Handled(Calendar(mode, cutoff, holiday), tick, day)
    {
      var i := LastTickBefore(tick, gap, day * DAY + cutoff, 0);
      var t := tick(i + 1);
      if t < (day + 1) * DAY {
        DivisionOfDay(day, t - day * DAY);
        assert day in Runs(Calendar(mode, cutoff, holiday), t / DAY, t % DAY);
      } else {
        DivisionOfDay(day + 1, t - (day + 1) * DAY);
        assert day in Runs(Calendar(mode, cutoff, holiday), t / DAY, t % DAY);
      }
    }
  }

  /** Ticks `gap` seconds apart, the first one just before the cutoff of day 0. */
  function Sparse(cutoff: int, gap: int): nat -> int {
    (i: nat) => cutoff - 1 + i * gap
  }

  lemma {:induction false} SparseFar(cutoff: int, gap: int, i: nat)
    requires gap > 0 && i >= 1
    ensures Sparse(cutoff, gap)(i) >= cutoff - 1 + gap
  {
    if i > 1 {
      SparseFar(cutoff, gap, i - 1);
      assert i * gap == (i - 1) * gap + gap;
    }
  }

  /** A tick before the cutoff of day 0, or after the last moment that still counts, does nothing for it. */
  lemma TooEarlyOrTooLate(c: Calendar, t: int)
    requires 0 <= c.cutoff < DAY && c.holiday(1)
    requires t < c.cutoff || t >= c.cutoff + SafeGap(c.mode, c.cutoff)
    ensures 0 !in Runs(c, t / DAY, t % DAY)
  {
  }

  lemma SparseIsSchedule(cutoff: int, step: int, gap: int)
    requires 0 < step <= gap
    ensures Schedule(Sparse(cutoff, step), gap) && Sparse(cutoff, step)(0) == cutoff - 1
  {
    forall i: nat ensures Sparse(cutoff, step)(i) < Sparse(cutoff, step)(i + 1) <= Sparse(cutoff, step)(i) + gap {
      assert (i + 1) * step == i * step + step;
    }
  }

  lemma SparseMisses(c: Calendar, step: int)
    requires 0 <= c.cutoff < DAY && c.holiday(1) && step == SafeGap(c.mode, c.cutoff) + 1
    ensures !Handled(c, Sparse(c.cutoff, step), 0)
  {
    var tick := Sparse(c.cutoff, step);
    forall i: nat ensures 0 !in Runs(c, tick(i) / DAY, tick(i) % DAY) {
      if i >= 1 {
        SparseFar(c.cutoff, step, i);
      }
      TooEarlyOrTooLate(c, tick(i));
    }
  }

  /** With any larger gap some schedule misses a day, even when only the day after it is a holiday. */
  lemma LongGapsMissADay(mode: Mode, cutoff: int, gap: int)
    requires 0 <= cutoff < DAY && gap > SafeGap(mode, cutoff)
    ensures !MissesNoDay(mode, cutoff, gap)
  {
    var step := SafeGap(mode, cutoff) + 1;
    var holiday: int -> bool := d => d == 1;
    SparseIsSchedule(cutoff, step, gap);
    SparseMisses(Calendar(mode, cutoff, holiday), step);
    assert Sparse(cutoff, step)(0) < 0 * DAY + cutoff && !holiday(0);
  }

  /**
    No day is missed exactly when the gap is at most an hour past the time from cutoff to
    midnight — a day in standard mode with a cutoff in the first hour, where a holiday keeps
    the day before from being caught up — and, for staff, who are not caught up at all, at
    most the time from cutoff to midnight.
   */
  lemma NoDayIsMissedExactly(mode: Mode, cutoff: int, gap: int)
    requires 0 <= cutoff < DAY
    ensures MissesNoDay(mode, cutoff, gap) <==> gap <= SafeGap(mode, cutoff)
    ensures gap <= HOUR && mode != Staff ==> MissesNoDay(mode, cutoff, gap)
  {
    if gap <= SafeGap(mode, cutoff) {
      ShortGapsAreSafe(mode, cutoff, gap);
    } else {
      LongGapsMissADay(mode, cutoff, gap);
    }
  }
}
