/**
  An employee's day (app/services/ai_face_ws.py, app/services/auto_attendance.py): device
  punches, which may come late, twice or out of order, and the absence scheduler write the
  same row.
 */
module EmployeePunches {
  import opened Wrappers
  import opened Text
  import opened DayRows
  import opened DeviceTags

  /** The employee's effective settings for the day; late says what a check-in time counts as. */
  datatype Settings = Settings(start: Option<nat>, cutoff: Option<nat>, departure: Option<nat>, lateFrom: Option<nat>)

  /** A device record: its clock time and the text the device sent for it. */
  datatype Punch = Punch(time: nat, text: string)

  const AUTO_NOTE: string := "غياب آلي بعد وقت إغلاق الحضور"
  const ARRIVED: string := "تم الحضور فعلياً (كان: "

  function Tag(p: Punch): string {
    DeviceTag(p.text)
  }

  function CheckInStatus(s: Settings, time: nat): Status {
    if s.lateFrom.Some? && time >= s.lateFrom.value then Late else Present
  }

  predicate BeforeStart(s: Settings, time: nat) {
    s.start.Some? && time < s.start.value
  }

  predicate PastCutoff(s: Settings, time: nat) {
    s.cutoff.Some? && time >= s.cutoff.value
  }

  predicate Departing(s: Settings, time: nat) {
    s.departure.Some? && time >= s.departure.value
  }

  /** The punch is an accepted arrival. */
  predicate InWindow(s: Settings, time: nat) {
    !BeforeStart(s, time) && !PastCutoff(s, time)
  }

  function StatusName(st: Status): string {
    match st
    case Present => "present"
    case Late => "late"
    case Absent => "absent"
    case OnLeave => "on_leave"
  }

  /** ' | '.join of the non-empty parts */
  function Joined(notes: Option<string>, rest: string): string {
    var kept := Strip(OrEmpty(notes));
    if kept == "" then rest else kept + " | " + rest
  }

  function Overridden(r: Row): string {
    ARRIVED + StatusName(r.status) + "/" + (if OrEmpty(r.source) == "" then "—" else r.source.value) + ")"
  }

  function Arrival(s: Settings, r: Row, p: Punch, notes: string): Row {
    r.(status := CheckInStatus(s, p.time), checkIn := Some(p.time), source := Some("aiface"), notes := Some(notes))
  }

  predicate Duplicate(day: Option<Row>, p: Punch) {
    day.Some? && Contains(OrEmpty(day.value.notes), Tag(p))
  }

  /** What a distinct punch on an eligible day does to the day's row. */
  function Accepted(s: Settings, day: Option<Row>, p: Punch): Option<Row> {
    if day.None? then
      if BeforeStart(s, p.time) then None
      else if PastCutoff(s, p.time) then Some(Row(Absent, Some(AUTO_ABSENCE_SOURCE), Some(Tag(p)), None, None))
      else Some(Row(CheckInStatus(s, p.time), Some("aiface"), Some(Tag(p)), Some(p.time), None))
    else
      var r := day.value;
      if IsFinalAutoAbsence(r) then
        if s.cutoff.Some? && InWindow(s, p.time) then Some(Arrival(s, r, p, Joined(r.notes, Tag(p)))) else day
      else if r.status == Absent then day
      else if r.checkIn.None? then Some(Arrival(s, r, p, Joined(r.notes, Overridden(r) + " | " + Tag(p))))
      else if r.status in {Present, Late} && r.checkOut.None? && Departing(s, p.time) then
        Some(r.(checkOut := Some(p.time), notes := Some(OrEmpty(r.notes) + "|" + Tag(p))))
      else day
  }

  function PunchDay(s: Settings, day: Option<Row>, p: Punch): Option<Row> {
    if Duplicate(day, p) then day else Accepted(s, day, p)
  }

  function AutoAbsence(): Row {
    Row(Absent, Some(AUTO_ABSENCE_SOURCE), Some(AUTO_NOTE), None, None)
  }

  function TickDay(day: Option<Row>, due: bool): Option<Row> {
    if day.None? && due then Some(AutoAbsence()) else day
  }

  // ---- Runs over one day ------------------------------------------------------------

  datatype Event = Delivered(punch: Punch) | Tick(due: bool)

  function Step(s: Settings, day: Option<Row>, e: Event): Option<Row> {
    match e
    case Delivered(p) => PunchDay(s, day, p)
    case Tick(due) => TickDay(day, due)
  }

  function Play(s: Settings, day: Option<Row>, log: seq<Event>): Option<Row> {
    if log == [] then day else Step(s, Play(s, day, log[..|log| - 1]), log[|log| - 1])
  }

  predicate Attended(day: Option<Row>) {
    day.Some? && day.value.status in {Present, Late} && day.value.checkIn.Some?
  }

  /** An attended day stays attended, with the same status and check-in, and its check-out is set at most once. */
  lemma AttendedStays(s: Settings, day: Option<Row>, e: Event)
    requires Attended(day)
    ensures Attended(Step(s, day, e))
    ensures Step(s, day, e).value.(checkOut := None, notes := None) == day.value.(checkOut := None, notes := None)
    ensures day.value.checkOut.Some? ==> Step(s, day, e) == day
    ensures day.value.checkOut.None? ==>
      var closes := e.Delivered? && !Duplicate(day, e.punch) && Departing(s, e.punch.time);
      Step(s, day, e).value.checkOut == if closes then Some(e.punch.time) else None
  {
  }

  lemma {:induction false} AttendedForGood(s: Settings, day: Option<Row>, log: seq<Event>)
    requires Attended(day)
    ensures Attended(Play(s, day, log))
    ensures Play(s, day, log).value.checkIn == day.value.checkIn && Play(s, day, log).value.status == day.value.status
    decreases |log|
  {
    if log != [] {
      AttendedForGood(s, day, log[..|log| - 1]);
      AttendedStays(s, Play(s, day, log[..|log| - 1]), log[|log| - 1]);
    }
  }

  // ---- What a punch does to whatever row it finds -------------------------------------------

  /** The time is not before the start, and before the cutoff, of those that are configured. */
  predicate OnTime(s: Settings, time: nat) {
    (s.start.Some? ==> s.start.value <= time) && (s.cutoff.Some? ==> time < s.cutoff.value)
  }

  /** The row waits for an arrival: there is none, it is an automatic absence, or nobody has checked in on it. */
  predicate Arrives(s: Settings, day: Option<Row>, p: Punch) {
    match day
    case None => OnTime(s, p.time)
    case Some(r) =>
      if r.status == Absent then r.source == Some(AUTO_ABSENCE_SOURCE) && s.cutoff.Some? && OnTime(s, p.time)
      else r.checkIn.None?
  }

  predicate Leaves(s: Settings, day: Option<Row>, p: Punch) {
    && day.Some? && day.value.status in {Present, Late} && day.value.checkIn.Some? && day.value.checkOut.None?
    && s.departure.Some? && s.departure.value <= p.time
  }

  /** There is no row, and the punch comes too late for one. */
  predicate Misses(s: Settings, day: Option<Row>, p: Punch) {
    && day.None? && s.cutoff.Some? && s.cutoff.value <= p.time && (s.start.Some? ==> s.start.value <= p.time)
  }

  /** A check-in at the punch's time, late from the threshold on; a check-out of an existing row stays. */
  predicate ChecksIn(s: Settings, day: Option<Row>, p: Punch, after: Option<Row>) {
    && after.Some? && after.value.checkIn == Some(p.time) && after.value.source == Some("aiface")
    && after.value.status == (if s.lateFrom.Some? && s.lateFrom.value <= p.time then Late else Present)
    && after.value.checkOut == if day.Some? then day.value.checkOut else None
  }

  /** What a punch does: it checks in, checks out, records the day's final absence, or changes nothing. */
  ghost predicate Judged(s: Settings, day: Option<Row>, p: Punch, after: Option<Row>) {
    var seen := day.Some? && Contains(OrEmpty(day.value.notes), Tag(p));
    && (!seen && Arrives(s, day, p) ==> ChecksIn(s, day, p, after))
    && (!seen && Leaves(s, day, p) ==>
          && after.Some? && after.value.checkOut == Some(p.time)
          && after.value.(checkOut := None, notes := None) == day.value.(checkOut := None, notes := None))
    && (Misses(s, day, p) ==> after == Some(Row(Absent, Some(AUTO_ABSENCE_SOURCE), Some(Tag(p)), None, None)))
    && (seen || !(Arrives(s, day, p) || Leaves(s, day, p) || Misses(s, day, p)) ==> after == day)
    && (after != day ==> after.Some? && Contains(OrEmpty(after.value.notes), Tag(p)))
  }

  lemma PunchIsJudged(s: Settings, day: Option<Row>, p: Punch)
    ensures Judged(s, day, p, PunchDay(s, day, p))
  {
    if PunchDay(s, day, p) != day {
      EffectivePunchIsRemembered(s, day, p);
    }
  }

  /** An absence that somebody entered is no final automatic one. */
  predicate Administrative(day: Option<Row>) {
    day.Some? && day.value.status == Absent && day.value.source != Some(AUTO_ABSENCE_SOURCE)
  }

  /** No deliveries and ticks touch an administrative absence. */
  lemma {:induction false} AdministrativeAbsenceStays(s: Settings, day: Option<Row>, log: seq<Event>)
    requires Administrative(day)
    ensures Play(s, day, log) == day
    decreases |log|
  {
    if log != [] {
      AdministrativeAbsenceStays(s, day, log[..|log| - 1]);
    }
  }

  /** A row, such as a leave, on which nobody has checked in and that is no absence. */
  predicate AwaitsArrival(day: Option<Row>) {
    day.Some? && day.value.status != Absent && day.value.checkIn.None?
  }

  /** The first delivery of the log whose tag is not in the row's notes. */
  predicate FirstUnseen(day: Option<Row>, log: seq<Event>, i: nat) {
    && i < |log| && log[i].Delivered? && !Duplicate(day, log[i].punch)
    && forall j :: 0 <= j < i && log[j].Delivered? ==> Duplicate(day, log[j].punch)
  }

  lemma {:induction false} SeenChangesNothing(s: Settings, day: Option<Row>, log: seq<Event>)
    requires day.Some? && forall j :: 0 <= j < |log| && log[j].Delivered? ==> Duplicate(day, log[j].punch)
    ensures Play(s, day, log) == day
    decreases |log|
  {
    if log != [] {
      SeenChangesNothing(s, day, log[..|log| - 1]);
    }
  }

  /** Such a row becomes attended by the first unseen delivery, with its time, whatever follows. */
  lemma {:induction false} LeaveBecomesAttended(s: Settings, day: Option<Row>, log: seq<Event>, i: nat)
    requires AwaitsArrival(day) && FirstUnseen(day, log, i)
    ensures var after := Play(s, day, log);
      Attended(after) && after.value.checkIn == Some(log[i].punch.time)
      && after.value.status == CheckInStatus(s, log[i].punch.time)
    decreases |log|
  {
    var n := |log| - 1;
    if i < n {
      assert FirstUnseen(day, log[..n], i);
      LeaveBecomesAttended(s, day, log[..n], i);
      AttendedStays(s, Play(s, day, log[..n]), log[n]);
    } else {
      SeenChangesNothing(s, day, log[..n]);
    }
  }

  // ---- Confluence ---------------------------------------------------------------------

  ghost predicate HasArrival(s: Settings, log: seq<Event>) {
    exists i :: 0 <= i < |log| && log[i].Delivered? && InWindow(s, log[i].punch.time)
  }

  ghost predicate Drawn(log: seq<Event>, ps: set<Punch>) {
    forall i :: 0 <= i < |log| && log[i].Delivered? ==> log[i].punch in ps
  }

  /** A late punch whose tag swallows an arrival's tag. */
  predicate Shadows(s: Settings, q: Punch, p: Punch) {
    !BeforeStart(s, q.time) && PastCutoff(s, q.time) && InWindow(s, p.time) && Contains(Tag(q), Tag(p))
  }

  ghost predicate Shadowed(s: Settings, ps: set<Punch>) {
    exists p, q :: p in ps && q in ps && Shadows(s, q, p)
  }

  /** Check-in, status and check-out come from delivered punches: an arrival, and one at or after departure. */
  ghost predicate Genuine(s: Settings, r: Row, ps: set<Punch>) {
    && (exists p :: p in ps && InWindow(s, p.time) && r.checkIn == Some(p.time) && r.status == CheckInStatus(s, p.time))
    && (r.checkOut.Some? ==>
          && s.departure.Some? && s.departure.value <= r.checkOut.value
          && exists q :: q in ps && r.checkOut == Some(q.time))
  }

  /** How a day that starts without a row can look. */
  ghost predicate Shape(s: Settings, day: Option<Row>, ps: set<Punch>) {
    day.Some? ==>
      || (Attended(day) && Genuine(s, day.value, ps))
      || (IsFinalAutoAbsence(day.value) && s.cutoff.Some?
          && day.value.checkIn.None? && day.value.checkOut.None? &&
          (day.value.notes == Some(AUTO_NOTE)
           || exists q :: q in ps && !BeforeStart(s, q.time) && PastCutoff(s, q.time) && day.value.notes == Some(Tag(q))))
  }

  /** The scheduler marks nobody absent before a cutoff is configured. */
  predicate Configured(s: Settings, e: Event) {
    e.Tick? && e.due ==> s.cutoff.Some?
  }

  lemma StepKeepsShape(s: Settings, day: Option<Row>, e: Event, ps: set<Punch>)
    requires Shape(s, day, ps) && Configured(s, e) && (e.Delivered? ==> e.punch in ps)
    ensures Shape(s, Step(s, day, e), ps)
  {
    if Attended(day) {
      AttendedStays(s, day, e);
    }
  }

  /** The scheduler's note mentions no device record. */
  lemma AutoNoteHoldsNoTag(p: Punch)
    ensures !Contains(AUTO_NOTE, Tag(p))
  {
    forall i | 0 <= i <= |AUTO_NOTE| - |Tag(p)| ensures !OccursAt(AUTO_NOTE, Tag(p), i) {
      assert AUTO_NOTE[i] != 'A' == Tag(p)[0];
      assert AUTO_NOTE[i..i + |Tag(p)|][0] == AUTO_NOTE[i];
    }
  }

  /** An arrival on an unattended day is missed only when a late punch's tag swallows its own. */
  lemma ArrivalCounts(s: Settings, day: Option<Row>, p: Punch, ps: set<Punch>)
    requires Shape(s, day, ps) && p in ps && InWindow(s, p.time) && !Shadowed(s, ps)
    ensures Attended(PunchDay(s, day, p))
  {
    AutoNoteHoldsNoTag(p);
    if Duplicate(day, p) && !Attended(day) {
      var q :| q in ps && !BeforeStart(s, q.time) && PastCutoff(s, q.time) && day.value.notes == Some(Tag(q));
      assert Shadows(s, q, p);
    }
  }

  lemma OnlyArrivalsAttend(s: Settings, day: Option<Row>, e: Event, ps: set<Punch>)
    requires Shape(s, day, ps) && Configured(s, e) && !Attended(day) && Attended(Step(s, day, e))
    ensures e.Delivered? && InWindow(s, e.punch.time)
  {
  }

  lemma {:induction false} RunShape(s: Settings, log: seq<Event>, ps: set<Punch>)
    requires Drawn(log, ps) && forall i :: 0 <= i < |log| ==> Configured(s, log[i])
    ensures Shape(s, Play(s, None, log), ps)
    ensures Attended(Play(s, None, log)) ==> HasArrival(s, log)
    ensures !Shadowed(s, ps) && HasArrival(s, log) ==> Attended(Play(s, None, log))
    decreases |log|
  {
    if log != [] {
      var n := |log| - 1;
      var before, day := log[..n], Play(s, None, log[..n]);
      RunShape(s, before, ps);
      StepKeepsShape(s, day, log[n], ps);
      if Attended(day) {
        AttendedStays(s, day, log[n]);
        var i :| 0 <= i < |before| && before[i].Delivered? && InWindow(s, before[i].punch.time);
        assert log[i] == before[i];
      } else {
        if Attended(Step(s, day, log[n])) {
          OnlyArrivalsAttend(s, day, log[n], ps);
        }
        assert forall i :: 0 <= i < n ==> before[i] == log[i];
        if !Shadowed(s, ps) && HasArrival(s, log) {
          var i :| 0 <= i < |log| && log[i].Delivered? && InWindow(s, log[i].punch.time);
          ArrivalCounts(s, day, log[n].punch, ps);
        }
      }
    }
  }

  /**
    For every order and repetition of deliveries drawn from ps, interleaved with scheduler
    ticks, the day ends attended exactly when an arrival was delivered...
   */
  ghost predicate Confluent(s: Settings, ps: set<Punch>) {
    forall log :: Drawn(log, ps) && (forall i :: 0 <= i < |log| ==> Configured(s, log[i])) ==>
      (Attended(Play(s, None, log)) <==> HasArrival(s, log))
  }

  /** ...if and only if no late punch's tag contains an arrival's tag. */
  lemma ConfluentExactly(s: Settings, ps: set<Punch>)
    ensures Confluent(s, ps) <==> !Shadowed(s, ps)
  {
    if Shadowed(s, ps) {
      var p, q :| p in ps && q in ps && Shadows(s, q, p);
      ShadowedLog(s, q, p);
      var log := [Delivered(q), Delivered(p)];
      assert log[1].Delivered? && InWindow(s, log[1].punch.time);
      assert Drawn(log, ps);
    } else {
      forall log | Drawn(log, ps) && (forall i :: 0 <= i < |log| ==> Configured(s, log[i]))
        ensures Attended(Play(s, None, log)) <==> HasArrival(s, log)
      {
        RunShape(s, log, ps);
      }
    }
  }

  lemma ShadowedLog(s: Settings, q: Punch, p: Punch)
    requires Shadows(s, q, p)
    ensures !Attended(Play(s, None, [Delivered(q), Delivered(p)]))
  {
    var log := [Delivered(q), Delivered(p)];
    assert log[..1] == [Delivered(q)] && log[..1][..0] == [];
    assert Play(s, None, log[..1]) == Step(s, None, Delivered(q));
    assert Duplicate(Step(s, None, Delivered(q)), p);
  }

  // ---- When tags swallow each other ---------------------------------------------------------

  /** An arrival whose text is a prefix of a late punch's. */
  predicate Prefixes(s: Settings, q: Punch, p: Punch) {
    !BeforeStart(s, q.time) && PastCutoff(s, q.time) && InWindow(s, p.time) && p.text <= q.text
  }

  /** So the day is confluent exactly when no arrival's text is a prefix of a late punch's. */
  lemma ConfluentExactlyWithoutPrefixes(s: Settings, ps: set<Punch>)
    requires forall p :: p in ps ==> 'A' !in p.text
    ensures Confluent(s, ps) <==> forall p, q :: p in ps && q in ps ==> !Prefixes(s, q, p)
  {
    forall p, q | p in ps && q in ps ensures Shadows(s, q, p) <==> Prefixes(s, q, p) {
      TagInTag(q.text, p.text);
    }
    ConfluentExactly(s, ps);
  }

  /** Zero-padded time texts, of one length and read by one parser, are confluent. */
  lemma PaddedTimesAreConfluent(s: Settings, ps: set<Punch>, length: nat, parse: string -> nat)
    requires forall p :: p in ps ==> |p.text| == length && 'A' !in p.text && p.time == parse(p.text)
    ensures Confluent(s, ps)
  {
    forall p, q | p in ps && q in ps ensures !Prefixes(s, q, p) {
      assert p.text <= q.text ==> p.text == q.text;
    }
    ConfluentExactlyWithoutPrefixes(s, ps);
  }

  /** strptime also reads unpadded texts: 10:0:1 is on time, 10:0:15 is late, and its row swallows the other. */
  lemma UnpaddedTimesAreNot(date: string)
    requires 'A' !in date
    ensures !Confluent(Settings(None, Some(36010), None, None),
                       {Punch(36001, date + " 10:0:1"), Punch(36015, date + " 10:0:1" + "5")})
  {
    var s := Settings(None, Some(36010), None, None);
    LongerText(s, Punch(36001, date + " 10:0:1"), Punch(36015, date + " 10:0:1" + "5"), "5");
  }

  lemma LongerText(s: Settings, p: Punch, q: Punch, more: string)
    requires !BeforeStart(s, q.time) && PastCutoff(s, q.time) && InWindow(s, p.time)
    requires q.text == p.text + more && 'A' !in q.text
    ensures !Confluent(s, {p, q})
  {
    assert forall c :: c in p.text ==> c in q.text;
    assert p.text <= q.text && Prefixes(s, q, p);
    ConfluentExactlyWithoutPrefixes(s, {p, q});
  }

  // ---- Repeats and order ---------------------------------------------------------------------

  /** A punch that changes the day leaves its tag behind... */
  lemma EffectivePunchIsRemembered(s: Settings, day: Option<Row>, p: Punch)
    requires PunchDay(s, day, p) != day
    ensures Duplicate(PunchDay(s, day, p), p)
  {
    var t := Tag(p);
    assert OccursAt(t, t, 0);
    if day.Some? {
      var kept, was := Strip(OrEmpty(day.value.notes)), Overridden(day.value) + " | ";
      TagAtTheEnd(OrEmpty(day.value.notes) + "|", t);
      TagAtTheEnd(kept + " | ", t);
      TagAtTheEnd(was, t);
      TagAtTheEnd(kept + " | " + was, t);
      assert kept + " | " + was + t == kept + " | " + (was + t);
    }
  }

  lemma TagAtTheEnd(front: string, t: string)
    ensures Contains(front + t, t)
  {
    assert OccursAt(front + t, t, |front|);
  }

  /** ...so delivering it again right away changes nothing. */
  lemma RepeatChangesNothing(s: Settings, day: Option<Row>, p: Punch)
    ensures PunchDay(s, PunchDay(s, day, p), p) == PunchDay(s, day, p)
  {
    if PunchDay(s, day, p) != day {
      EffectivePunchIsRemembered(s, day, p);
    }
  }

  lemma PlayThree(s: Settings, a: Event, b: Event, c: Event)
    ensures Play(s, None, [a, b, c]) == Step(s, Step(s, Step(s, None, a), b), c)
  {
    assert [a, b, c][..2] == [a, b] && [a, b][..1] == [a] && [a][..0] == [];
    assert Play(s, None, [a]) == Step(s, None, a);
    assert Play(s, None, [a, b]) == Step(s, Step(s, None, a), b);
  }

  /**
    Only being attended is independent of order: a departure punch that comes after the
    scheduler's row and before the delayed arrival is ignored, in the other order it is the
    check-out.
   */
  lemma CheckOutDependsOnOrder(s: Settings, p: Punch, q: Punch)
    requires InWindow(s, p.time) && PastCutoff(s, q.time) && Departing(s, q.time)
    requires !Contains(Joined(Some(AUTO_NOTE), Tag(p)), Tag(q))
    ensures var late, early := Play(s, None, [Tick(true), Delivered(q), Delivered(p)]), Play(s, None, [Tick(true), Delivered(p), Delivered(q)]);
      && Attended(late) && late.value.checkOut == None
      && Attended(early) && early.value.checkOut == Some(q.time)
  {
    PlayThree(s, Tick(true), Delivered(q), Delivered(p));
    PlayThree(s, Tick(true), Delivered(p), Delivered(q));
    AutoNoteHoldsNoTag(p);
    AutoNoteHoldsNoTag(q);
  }

  // ---- The unique-key race --------------------------------------------------------------------

  /** A punch that read `seen` and commits over `now`: an insert that lost the race is dropped. */
  function Committed(s: Settings, seen: Option<Row>, now: Option<Row>, p: Punch): Option<Row> {
    if seen.None? && now.Some? then now else PunchDay(s, now, p)
  }

  /** The scheduler can win that race, and the arrival is lost until the device sends it again. */
  lemma LostRaceNeedsRedelivery(s: Settings, p: Punch)
    requires s.cutoff.Some? && InWindow(s, p.time)
    ensures !Attended(Committed(s, None, TickDay(None, true), p))
    ensures Attended(PunchDay(s, Committed(s, None, TickDay(None, true), p), p))
  {
    AutoNoteHoldsNoTag(p);
  }

  // ---- The table of all employees ----------------------------------------------------------------

  /** An employee as the services see them; settings are None in shift mode without a valid shift. */
  datatype Employee = Employee(active: bool, hireDate: Option<int>, settings: Option<Settings>)

  type Key = (nat, int)

  type Table = map<Key, Row>

  datatype Result = Processed | Skipped | Unmatched

  function DayOf(t: Table, key: Key): Option<Row> {
    if key in t then Some(t[key]) else None
  }

  predicate Eligible(e: Employee, date: int, workday: bool, activeYear: bool) {
    && e.active && activeYear && workday && e.settings.Some?
    && (e.hireDate.Some? ==> e.hireDate.value <= date)
  }

  /** The scheduler's rule: a 00:00 cutoff counts as none unless it comes from a shift. */
  predicate Due(e: Employee, date: int, workday: bool, activeYear: bool, shiftMode: bool, now: nat) {
    && Eligible(e, date, workday, activeYear) && PastCutoff(e.settings.value, now)
    && (shiftMode || e.settings.value.cutoff != Some(0))
  }

  /** A working day of somebody hired by then, past a cutoff that is configured for them. */
  predicate OwesAttendance(e: Employee, date: int, workday: bool, activeYear: bool, shiftMode: bool, now: nat) {
    && workday && activeYear && e.active && (e.hireDate.None? || e.hireDate.value <= date)
    && e.settings.Some? && e.settings.value.cutoff.Some?
    && (var cutoff := e.settings.value.cutoff.value; cutoff <= now && (cutoff > 0 || shiftMode))
  }

  class Sheet {
    var rows: Table

    /**
      One device record. `person` is None when no active mapping leads to an employee of the
      device's school; `meanwhile` is a row another writer inserts before this one commits.
     */
    method ProcessPunch(person: Option<Employee>, id: nat, date: int, p: Punch,
                        workday: bool, activeYear: bool, meanwhile: Option<Row>) returns (result: Result)
      modifies this
      ensures result == Unmatched <==> person.None?
      ensures person.Some? ==>
        (result == Skipped <==>
          || !Eligible(person.value, date, workday, activeYear) || Duplicate(DayOf(old(rows), (id, date)), p)
          || (DayOf(old(rows), (id, date)).None? && meanwhile.Some? && !BeforeStart(person.value.settings.value, p.time)))
      ensures person.Some? && Eligible(person.value, date, workday, activeYear) ==>
        && (DayOf(old(rows), (id, date)).Some? || meanwhile.None? ==>
              Judged(person.value.settings.value, DayOf(old(rows), (id, date)), p, DayOf(rows, (id, date))))
        && (AwaitsArrival(DayOf(old(rows), (id, date))) && !Duplicate(DayOf(old(rows), (id, date)), p) ==>
              Attended(DayOf(rows, (id, date))) && rows[(id, date)].checkIn == Some(p.time))
      ensures Administrative(DayOf(old(rows), (id, date))) ==> rows == old(rows)
      ensures forall key :: key != (id, date) ==> DayOf(rows, key) == DayOf(old(rows), key)
      ensures DayOf(rows, (id, date)) ==
        if person.None? || !Eligible(person.value, date, workday, activeYear) then DayOf(old(rows), (id, date))
        else if DayOf(old(rows), (id, date)).None? && meanwhile.Some? then meanwhile
        else PunchDay(person.value.settings.value, DayOf(old(rows), (id, date)), p)
      ensures Attended(DayOf(old(rows), (id, date))) ==> Attended(DayOf(rows, (id, date)))
    {
      if person.None? {
        return Unmatched;
      }
      var e := person.value;
      if !e.active || !activeYear || (e.hireDate.Some? && date < e.hireDate.value) {
        return Skipped;
      }
      var day := DayOf(rows, (id, date));
      if Duplicate(day, p) || !workday || e.settings.None? {
        return Skipped;
      }
      if day.None? && meanwhile.Some? {
        rows := rows[(id, date) := meanwhile.value];
        return if BeforeStart(e.settings.value, p.time) then Processed else Skipped;
      }
      PunchIsJudged(e.settings.value, day, p);
      var after := Accepted(e.settings.value, day, p);
      if after.Some? {
        rows := rows[(id, date) := after.value];
      }
      result := Processed;
    }

    /** The scheduler's pass over a school's employees for one date. */
    method RunAutoAbsent(staff: seq<(nat, Employee)>, date: int, now: nat,
                         workday: bool, activeYear: bool, shiftMode: bool) returns (created: nat)
      requires forall i, j :: 0 <= i < j < |staff| ==> staff[i].0 != staff[j].0
      modifies this
      ensures forall i :: 0 <= i < |staff| ==>
        var due := Due(staff[i].1, date, workday, activeYear, shiftMode, now);
        DayOf(rows, (staff[i].0, date)) == TickDay(DayOf(old(rows), (staff[i].0, date)), due)
      ensures forall i :: 0 <= i < |staff| && (staff[i].0, date) !in old(rows) ==>
        ((staff[i].0, date) in rows <==> OwesAttendance(staff[i].1, date, workday, activeYear, shiftMode, now))
      ensures forall key :: key in rows && key !in old(rows) ==> rows[key] == AutoAbsence() && key.1 == date
      ensures forall key :: key in old(rows) ==> key in rows && rows[key] == old(rows)[key]
      ensures |rows| == |old(rows)| + created
    {
      created := 0;
      for i := 0 to |staff|
        invariant forall k :: 0 <= k < i ==>
          var due := Due(staff[k].1, date, workday, activeYear, shiftMode, now);
          DayOf(rows, (staff[k].0, date)) == TickDay(DayOf(old(rows), (staff[k].0, date)), due)
        invariant forall k :: i <= k < |staff| ==>
          DayOf(rows, (staff[k].0, date)) == DayOf(old(rows), (staff[k].0, date))
        invariant forall key :: key in rows && key !in old(rows) ==> rows[key] == AutoAbsence() && key.1 == date
        invariant forall key :: key in old(rows) ==> key in rows && rows[key] == old(rows)[key]
        invariant |rows| == |old(rows)| + created
      {
        var key := (staff[i].0, date);
        if key !in rows && Due(staff[i].1, date, workday, activeYear, shiftMode, now) {
          rows := rows[key := AutoAbsence()];
          created := created + 1;
        }
      }
    }
  }
}
