/**
  Student check-in and check-out (app/services/attendance_service.py): one row per student
  and day, written by device punches and by the scanner endpoint, with the processed events
  remembered as tags in the row's notes.
 */
module AttendancePunch {
  import opened Wrappers
  import opened Text
  import opened DayRows
  import opened DeviceTags

  /** The student's effective settings: departure of the shift or the school, and the late threshold. */
  datatype Settings = Settings(departure: Option<nat>, lateFrom: Option<nat>)

  /** A punch; without a tag it cannot be recognised again. */
  datatype Punch = Punch(time: nat, tag: Option<string>, source: string)

  datatype Action = CheckIn | CheckOut | AlreadyCheckedIn | Duplicate

  function CheckInStatus(s: Settings, time: nat): Status {
    if s.lateFrom.Some? && time >= s.lateFrom.value then Late else Present
  }

  function RStrip(s: string): (r: string)
    decreases |s|
  {
    if s != "" && IsSpace(s[|s| - 1]) then RStrip(s[..|s| - 1]) else s
  }

  predicate Departing(s: Settings, time: nat) {
    s.departure.Some? && time >= s.departure.value
  }

  predicate Seen(day: Option<Row>, p: Punch) {
    day.Some? && OrEmpty(p.tag) != "" && Contains(OrEmpty(day.value.notes), p.tag.value)
  }

  predicate ApprovedLeave(r: Row) {
    r.status == OnLeave && r.source == Some("leave")
  }

  function LeaveNotes(notes: Option<string>, p: Punch): Option<string> {
    if OrEmpty(p.tag) == "" then notes else Some(Strip(RStrip(OrEmpty(notes)) + " " + p.tag.value))
  }

  function OutNotes(notes: Option<string>, p: Punch): Option<string> {
    if OrEmpty(p.tag) == "" then notes else Some(Strip(OrEmpty(notes) + " " + p.tag.value))
  }

  /** One punch on the day's row, and what is reported for it. */
  function Punched(s: Settings, day: Option<Row>, p: Punch): (Action, Option<Row>) {
    if Seen(day, p) then (Duplicate, day)
    else if day.None? then
      (CheckIn, Some(Row(CheckInStatus(s, p.time), Some(p.source), p.tag, Some(p.time), None)))
    else
      var r := day.value;
      if ApprovedLeave(r) then
        (CheckIn, Some(r.(status := CheckInStatus(s, p.time), checkIn := Some(p.time),
                          source := Some(p.source), notes := LeaveNotes(r.notes, p))))
      else if Departing(s, p.time) && r.checkOut.None? then
        (CheckOut, Some(r.(checkOut := Some(p.time), notes := OutNotes(r.notes, p))))
      else (AlreadyCheckedIn, day)
  }

  /** The event was recorded in the day's notes. */
  predicate Recorded(day: Option<Row>, tag: Option<string>) {
    day.Some? && tag.Some? && tag.value != "" && Contains(OrEmpty(day.value.notes), tag.value)
  }

  /** The student comes in: nobody has been recorded that day, or only an approved leave. */
  predicate Enters(day: Option<Row>) {
    day.None? || (day.value.status == OnLeave && day.value.source == Some("leave"))
  }

  /** The student leaves: at or after the departure time, for the first time. */
  predicate Leaves(s: Settings, day: Option<Row>, time: nat) {
    day.Some? && !Enters(day) && day.value.checkOut.None? && s.departure.Some? && s.departure.value <= time
  }

  /** A present student came before the late threshold, a late one at or after it. */
  predicate CameIn(s: Settings, day: Option<Row>, p: Punch, after: Row) {
    && (after.status == Late <==> s.lateFrom.Some? && s.lateFrom.value <= p.time)
    && (after.status == Present <==> s.lateFrom.None? || p.time < s.lateFrom.value)
    && after.checkIn == Some(p.time) && after.source == Some(p.source)
    && after.checkOut == (if day.None? then None else day.value.checkOut)
    && (day.None? ==> after.notes == p.tag)
  }

  /** What a report says about the day before and after the punch. */
  predicate Accounts(s: Settings, day: Option<Row>, p: Punch, action: Action, after: Option<Row>) {
    && (action == Duplicate <==> Recorded(day, p.tag))
    && (action == CheckIn <==> Enters(day) && !Recorded(day, p.tag))
    && (action == CheckOut <==> Leaves(s, day, p.time) && !Recorded(day, p.tag))
    && (action in {Duplicate, AlreadyCheckedIn} ==> after == day)
    && (action == CheckIn ==> after.Some? && CameIn(s, day, p, after.value))
    && (action == CheckOut ==> after.Some? && after.value == day.value.(checkOut := Some(p.time), notes := after.value.notes))
    && (action in {CheckIn, CheckOut} && day.Some? && OrEmpty(p.tag) == "" ==> after.value.notes == day.value.notes)
  }

  lemma PunchAccounts(s: Settings, day: Option<Row>, p: Punch)
    ensures var (action, after) := Punched(s, day, p); Accounts(s, day, p, action, after)
  {
  }

  function Play(s: Settings, day: Option<Row>, log: seq<Punch>): Option<Row> {
    if log == [] then day else Punched(s, Play(s, day, log[..|log| - 1]), log[|log| - 1]).1
  }

  function Count(s: Settings, day: Option<Row>, log: seq<Punch>, action: Action): nat {
    if log == [] then 0
    else
      var before := log[..|log| - 1];
      Count(s, day, before, action)
      + if Punched(s, Play(s, day, before), log[|log| - 1]).0 == action then 1 else 0
  }

  // ---- Replaying a log --------------------------------------------------------------

  /** A tag that stripping cannot hurt, as every device tag is. */
  predicate Tagged(p: Punch) {
    p.tag.Some? && p.tag.value != "" && Trimmed(p.tag.value)
  }

  /** Seeing the punch again would change nothing, now or later. */
  predicate Spent(s: Settings, day: Option<Row>, p: Punch) {
    day.Some? && (Seen(day, p) || (!ApprovedLeave(day.value) && (!Departing(s, p.time) || day.value.checkOut.Some?)))
  }

  lemma {:induction false} RStripKeeps(s: string, t: string)
    requires Contains(s, t) && Trimmed(t) && t != ""
    ensures Contains(RStrip(s), t)
    decreases |s|
  {
    if s != "" && IsSpace(s[|s| - 1]) {
      var i :| 0 <= i <= |s| - |t| && OccursAt(s, t, i);
      assert s[i + |t| - 1] == t[|t| - 1];
      assert OccursAt(s[..|s| - 1], t, i);
      RStripKeeps(s[..|s| - 1], t);
    }
  }

  lemma AppendedKeeps(front: string, tag: string, t: string)
    requires Trimmed(t) && t != "" && (t == tag || Contains(front, t))
    ensures Contains(Strip(front + " " + tag), t)
  {
    if t == tag {
      assert OccursAt(t, t, 0);
      ContainsWider(front + " ", t, "", t);
      assert (front + " ") + t + "" == front + " " + tag;
    } else {
      ContainsWider("", front, " " + tag, t);
      assert "" + front + (" " + tag) == front + " " + tag;
    }
    StripKeeps(front + " " + tag, t);
  }

  /** Both ways of appending a tag keep the tags that are there and add the new one. */
  lemma AppendingKeeps(notes: Option<string>, p: Punch, t: string)
    requires Tagged(p) && Trimmed(t) && t != ""
    requires Contains(OrEmpty(notes), t) || t == p.tag.value
    ensures Contains(OrEmpty(OutNotes(notes, p)), t) && Contains(OrEmpty(LeaveNotes(notes, p)), t)
  {
    var was, tag := OrEmpty(notes), p.tag.value;
    if t != tag {
      RStripKeeps(was, t);
    }
    AppendedKeeps(was, tag, t);
    AppendedKeeps(RStrip(was), tag, t);
  }

  lemma NotedIsSpent(s: Settings, r: Row, p: Punch, notes: string)
    requires Tagged(p) && r.notes == Some(notes) && Contains(notes, p.tag.value)
    ensures Spent(s, Some(r), p)
  {
  }

  lemma PunchedIsSpent(s: Settings, day: Option<Row>, p: Punch)
    requires Tagged(p)
    ensures Spent(s, Punched(s, day, p).1, p)
  {
    if day.None? {
      assert OccursAt(p.tag.value, p.tag.value, 0);
      NotedIsSpent(s, Punched(s, day, p).1.value, p, p.tag.value);
    } else if Seen(day, p) {
      NotedIsSpent(s, day.value, p, day.value.notes.value);
    } else {
      AppendingKeeps(day.value.notes, p, p.tag.value);
      if ApprovedLeave(day.value) {
        NotedIsSpent(s, Punched(s, day, p).1.value, p, LeaveNotes(day.value.notes, p).value);
      } else if Departing(s, p.time) && day.value.checkOut.None? {
        NotedIsSpent(s, Punched(s, day, p).1.value, p, OutNotes(day.value.notes, p).value);
      }
    }
  }

  lemma SpentStays(s: Settings, day: Option<Row>, p: Punch, q: Punch)
    requires Tagged(p) && Tagged(q) && Spent(s, day, p)
    ensures Spent(s, Punched(s, day, q).1, p)
  {
    if Seen(day, p) {
      AppendingKeeps(day.value.notes, q, p.tag.value);
    }
  }

  lemma SpentChangesNothing(s: Settings, day: Option<Row>, p: Punch)
    requires Spent(s, day, p)
    ensures Punched(s, day, p).1 == day && Punched(s, day, p).0 in {Duplicate, AlreadyCheckedIn}
  {
  }

  predicate Devices(log: seq<Punch>) {
    forall i :: 0 <= i < |log| ==> Tagged(log[i])
  }

  lemma {:induction false} PlayedIsSpent(s: Settings, day: Option<Row>, log: seq<Punch>, i: nat)
    requires Devices(log) && i < |log|
    ensures Spent(s, Play(s, day, log), log[i])
    decreases |log|
  {
    var n := |log| - 1;
    if i == n {
      PunchedIsSpent(s, Play(s, day, log[..n]), log[n]);
    } else {
      PlayedIsSpent(s, day, log[..n], i);
      SpentStays(s, Play(s, day, log[..n]), log[i], log[n]);
    }
  }

  /** Whatever has been processed may be delivered again, in any order and any number of times. */
  lemma {:induction false} RedeliveryChangesNothing(s: Settings, day: Option<Row>, log: seq<Punch>, again: seq<Punch>)
    requires Devices(log) && forall i :: 0 <= i < |again| ==> again[i] in log
    ensures Play(s, day, log + again) == Play(s, day, log)
    ensures forall a :: a in {CheckIn, CheckOut} ==> Count(s, day, log + again, a) == Count(s, day, log, a)
    decreases |again|
  {
    if again == [] {
      assert log + again == log;
    } else {
      var n := |again| - 1;
      RedeliveryChangesNothing(s, day, log, again[..n]);
      assert (log + again)[..|log + again| - 1] == log + again[..n];
      OneRedelivery(s, day, log, log + again[..n], again[n]);
    }
  }

  lemma OneRedelivery(s: Settings, day: Option<Row>, log: seq<Punch>, longer: seq<Punch>, p: Punch)
    requires Devices(log) && p in log && Play(s, day, longer) == Play(s, day, log)
    ensures Punched(s, Play(s, day, longer), p).1 == Play(s, day, log)
    ensures Punched(s, Play(s, day, longer), p).0 !in {CheckIn, CheckOut}
  {
    var i :| 0 <= i < |log| && log[i] == p;
    PlayedIsSpent(s, day, log, i);
    SpentChangesNothing(s, Play(s, day, log), p);
  }

  /** Without a tag, a punch that opened the day is taken for a check-out when it comes again, if it may be one. */
  lemma UntaggedReplay(s: Settings, p: Punch)
    requires OrEmpty(p.tag) == ""
    ensures Play(s, None, [p, p]) == Play(s, None, [p]) <==> !Departing(s, p.time)
  {
    assert [p, p][..1] == [p] && [p][..0] == [];
    assert Play(s, None, [p, p]) == Punched(s, Play(s, None, [p]), p).1;
    assert Play(s, None, [p]) == Punched(s, None, p).1;
  }

  // ---- Transitions over a day -----------------------------------------------------------

  /** What may still happen: a leave or missing row may be checked in, an open row checked out. */
  function Left(day: Option<Row>, action: Action): nat {
    match action
    case CheckIn => if day.None? || ApprovedLeave(day.value) then 1 else 0
    case _ => if day.None? || day.value.checkOut.None? then 1 else 0
  }

  lemma {:induction false} AtMostOneOfEach(s: Settings, day: Option<Row>, log: seq<Punch>, action: Action)
    requires action in {CheckIn, CheckOut}
    ensures Count(s, day, log, action) + Left(Play(s, day, log), action) <= Left(day, action) <= 1
    decreases |log|
  {
    if log != [] {
      AtMostOneOfEach(s, day, log[..|log| - 1], action);
    }
  }

  predicate Ordered(log: seq<Punch>) {
    forall i, j :: 0 <= i < j < |log| ==> log[i].time <= log[j].time
  }

  /** A day that starts without a row has a check-in, and in a time-ordered log nothing precedes it. */
  lemma {:induction false} CheckInComesFirst(s: Settings, log: seq<Punch>)
    requires Ordered(log) && log != []
    ensures var day := Play(s, None, log);
      && day.Some? && day.value.status in {Present, Late} && day.value.checkIn == Some(log[0].time)
      && (day.value.checkOut.Some? ==> day.value.checkIn.value <= day.value.checkOut.value)
    decreases |log|
  {
    var n := |log| - 1;
    if n > 0 {
      CheckInComesFirst(s, log[..n]);
    } else {
      assert log[..n] == [];
    }
  }

  /** The i-th punch of a log is at or after departure and not one that was recorded before. */
  predicate Departs(s: Settings, log: seq<Punch>, i: nat)
    requires i < |log|
  {
    Departing(s, log[i].time) && !Seen(Play(s, None, log[..i]), log[i])
  }

  /** The student left with the i-th punch: no earlier one after the opening punch departs. */
  predicate LeftWith(s: Settings, log: seq<Punch>, i: nat) {
    1 <= i < |log| && Departs(s, log, i) && forall j :: 1 <= j < i ==> !Departs(s, log, j)
  }

  /** A day that is open is closed by an unrecorded departing punch, and by nothing else. */
  lemma PunchedCheckOut(s: Settings, day: Option<Row>, p: Punch)
    requires day.Some? && !ApprovedLeave(day.value)
    ensures var after := Punched(s, day, p).1;
      && after.Some? && !ApprovedLeave(after.value)
      && after.value.checkOut == (if day.value.checkOut.Some? then day.value.checkOut
                                  else if Departing(s, p.time) && !Seen(day, p) then Some(p.time) else None)
  {
  }

  /** The student is checked out exactly by the first unrecorded punch after the opening one that is late enough. */
  lemma {:induction false} FirstDepartureChecksOut(s: Settings, log: seq<Punch>)
    requires log != []
    ensures var day := Play(s, None, log);
      && day.Some? && !ApprovedLeave(day.value)
      && (day.value.checkOut.None? <==> forall i :: 1 <= i < |log| ==> !Departs(s, log, i))
      && (forall i: nat :: LeftWith(s, log, i) ==> day.value.checkOut == Some(log[i].time))
    decreases |log|
  {
    var n := |log| - 1;
    var before := log[..n];
    if n == 0 {
      assert before == [];
    } else {
      FirstDepartureChecksOut(s, before);
      PunchedCheckOut(s, Play(s, None, before), log[n]);
      forall i | 0 <= i < n ensures Departs(s, before, i) <==> Departs(s, log, i) {
        assert before[..i] == log[..i] && before[i] == log[i];
      }
      DepartureFoundLater(s, log, Play(s, None, before).value.checkOut, Play(s, None, log).value.checkOut);
    }
  }

  /** What one more punch means for the first departure. */
  lemma DepartureFoundLater(s: Settings, log: seq<Punch>, was: Option<nat>, now: Option<nat>)
    requires |log| > 1
    requires var n := |log| - 1;
      && (forall i :: 0 <= i < n ==> (Departs(s, log[..n], i) <==> Departs(s, log, i)))
      && (was.None? <==> forall i :: 1 <= i < n ==> !Departs(s, log[..n], i))
      && (forall i: nat :: LeftWith(s, log[..n], i) ==> was == Some(log[i].time))
      && now == if was.Some? then was else if Departs(s, log, n) then Some(log[n].time) else None
    ensures now.None? <==> forall i :: 1 <= i < |log| ==> !Departs(s, log, i)
    ensures forall i: nat :: LeftWith(s, log, i) ==> now == Some(log[i].time)
  {
    var n := |log| - 1;
    forall i: nat | LeftWith(s, log, i) ensures now == Some(log[i].time) {
      if i < n {
        assert LeftWith(s, log[..n], i);
      }
    }
  }

  // ---- What the substring test recognises -----------------------------------------------

  /** A punch with a device tag of the given width. */
  predicate Stamped(p: Punch, width: nat) {
    && p.tag.Some? && Trimmed(p.tag.value) && |p.tag.value| == |TAG_HEAD| + width
    && p.tag.value[..|TAG_HEAD|] == TAG_HEAD && 'A' !in p.tag.value[|TAG_HEAD|..]
  }

  /** The punches that checked the student in or out. */
  function Transitions(s: Settings, log: seq<Punch>): seq<Punch> {
    if log == [] then []
    else
      var before, p := log[..|log| - 1], log[|log| - 1];
      if Punched(s, Play(s, None, before), p).0 in {CheckIn, CheckOut} then Transitions(s, before) + [p]
      else Transitions(s, before)
  }

  /** The day's row written out from its transitions. */
  predicate Reads(day: Option<Row>, ts: seq<Punch>) {
    match |ts|
    case 0 => day.None?
    case 1 => day.Some? && day.value.notes == ts[0].tag && day.value.checkOut.None? && day.value.status != OnLeave
    case 2 =>
      && day.Some? && ts[0].tag.Some? && ts[1].tag.Some?
      && day.value.notes == Some(ts[0].tag.value + " " + ts[1].tag.value)
      && day.value.checkOut.Some? && day.value.status != OnLeave
    case _ => false
  }

  lemma StripKeepsTrimmed(t: string)
    requires t != "" && !IsSpace(t[0]) && !IsSpace(t[|t| - 1])
    ensures Strip(t) == t
  {
  }

  lemma TwoTagsAreTrimmed(first: string, second: string)
    requires first != "" && second != "" && Trimmed(first) && Trimmed(second)
    ensures Strip(first + " " + second) == first + " " + second
  {
    var t := first + " " + second;
    assert t[0] == first[0] && t[|t| - 1] == second[|second| - 1];
    StripKeepsTrimmed(t);
  }

  lemma {:induction false} NotesAreTransitions(s: Settings, log: seq<Punch>, width: nat)
    requires forall i :: 0 <= i < |log| ==> Stamped(log[i], width)
    ensures Reads(Play(s, None, log), Transitions(s, log))
    ensures forall i :: 0 <= i < |Transitions(s, log)| ==> Stamped(Transitions(s, log)[i], width)
    decreases |log|
  {
    if log != [] {
      var before, p := log[..|log| - 1], log[|log| - 1];
      NotesAreTransitions(s, before, width);
      var ts := Transitions(s, before);
      if |ts| == 1 {
        TwoTagsAreTrimmed(ts[0].tag.value, p.tag.value);
      }
    }
  }

  lemma StampedText(p: Punch, width: nat) returns (text: string)
    requires Stamped(p, width)
    ensures |text| == width && 'A' !in text && p.tag == Some(DeviceTag(text))
  {
    text := p.tag.value[|TAG_HEAD|..];
    assert p.tag.value == p.tag.value[..|TAG_HEAD|] + text;
  }

  lemma OneTagTest(first: Punch, q: Punch, width: nat)
    requires Stamped(first, width) && Stamped(q, width)
    ensures Contains(first.tag.value, q.tag.value) <==> q.tag == first.tag
  {
    var text := StampedText(q, width);
    var other := StampedText(first, width);
    TagInTag(other, text);
    assert text <= other ==> text == other;
  }

  lemma TwoTagTest(first: Punch, second: Punch, q: Punch, width: nat)
    requires Stamped(first, width) && Stamped(second, width) && Stamped(q, width)
    ensures Contains(first.tag.value + " " + second.tag.value, q.tag.value) <==> q.tag == first.tag || q.tag == second.tag
  {
    var text := StampedText(q, width);
    var other := StampedText(first, width);
    var third := StampedText(second, width);
    TagInTwoTags(other, third, text);
    assert DeviceTag(text)[|TAG_HEAD|..] == text && DeviceTag(other)[|TAG_HEAD|..] == other
      && DeviceTag(third)[|TAG_HEAD|..] == third;
  }

  ghost predicate HasTag(ts: seq<Punch>, tag: Option<string>) {
    exists i :: 0 <= i < |ts| && ts[i].tag == tag
  }

  /** For tags of one width the substring test is exact: it finds a tag if and only if that tag was recorded. */
  lemma SubstringTestIsMembership(s: Settings, log: seq<Punch>, width: nat, q: Punch)
    requires Stamped(q, width) && forall i :: 0 <= i < |log| ==> Stamped(log[i], width)
    ensures Seen(Play(s, None, log), q) <==> HasTag(Transitions(s, log), q.tag)
  {
    NotesAreTransitions(s, log, width);
    RowKnowsItsTags(Play(s, None, log), Transitions(s, log), width, q);
  }

  lemma RowKnowsItsTags(day: Option<Row>, ts: seq<Punch>, width: nat, q: Punch)
    requires Reads(day, ts) && Stamped(q, width) && forall i :: 0 <= i < |ts| ==> Stamped(ts[i], width)
    ensures Seen(day, q) <==> HasTag(ts, q.tag)
  {
    if |ts| == 1 {
      OneTagTest(ts[0], q, width);
    } else if |ts| == 2 {
      TwoTagTest(ts[0], ts[1], q, width);
    }
  }

  // ---- The scanner endpoint ------------------------------------------------------------------

  const SERIAL_HEAD: string := "hik:sn="

  function SerialTag(serial: nat): string {
    SERIAL_HEAD + Decimal(serial)
  }

  function ScanPunch(time: nat, serial: Option<nat>): Punch {
    if serial.Some? then Punch(time, Some(SerialTag(serial.value)), "hikvision") else Punch(time, None, "api")
  }

  /** The endpoint's own rules: unlike a device punch, a departing student is reported out every time. */
  function Scanned(s: Settings, day: Option<Row>, time: nat, serial: Option<nat>): (Action, Option<Row>) {
    var p := ScanPunch(time, serial);
    if serial.Some? && day.Some? && Contains(OrEmpty(day.value.notes), SerialTag(serial.value)) then (Duplicate, day)
    else if day.None? then
      (CheckIn, Some(Row(CheckInStatus(s, time), Some(p.source), p.tag, Some(time), None)))
    else
      var r := day.value;
      if ApprovedLeave(r) then
        (CheckIn, Some(r.(status := CheckInStatus(s, time), checkIn := Some(time),
                          source := Some(p.source), notes := LeaveNotes(r.notes, p))))
      else if Departing(s, time) then
        (CheckOut, if r.checkOut.Some? then day else Some(r.(checkOut := Some(time), notes := OutNotes(r.notes, p))))
      else (AlreadyCheckedIn, day)
  }

  /** A scan leaves the same row as the punch, and reports the same unless the student had left already. */
  lemma ScanAgreesWithPunch(s: Settings, day: Option<Row>, time: nat, serial: Option<nat>)
    ensures var p := ScanPunch(time, serial);
      && Scanned(s, day, time, serial).1 == Punched(s, day, p).1
      && (Scanned(s, day, time, serial).0 == Punched(s, day, p).0 <==>
            Seen(day, p) || day.None? || ApprovedLeave(day.value) || !Departing(s, time) || day.value.checkOut.None?)
  {
    if serial.Some? {
      assert SerialTag(serial.value)[0] == 'h';
    }
  }

  /** A serial's tag contains another's exactly when its decimal digits start with the other's. */
  lemma SerialInSerial(other: nat, serial: nat)
    ensures Contains(SerialTag(other), SerialTag(serial)) <==> Decimal(serial) <= Decimal(other)
  {
    assert SERIAL_HEAD[0] == 'h' && 'h' !in SERIAL_HEAD[1..];
    assert 'h' !in Decimal(other);
    HeadedInHeaded(SERIAL_HEAD, Decimal(other), Decimal(serial));
  }

  /** So after event 10n + d has opened the day, event n of the same student is taken for a duplicate. */
  lemma ShorterSerialIsSwallowed(s: Settings, first: nat, second: nat, n: nat, d: nat)
    requires 0 < n && d < 10
    ensures var day := Scanned(s, None, first, Some(10 * n + d)).1;
      Scanned(s, day, second, Some(n)) == (Duplicate, day)
  {
    assert Decimal(10 * n + d) == Decimal(n) + [('0' as int + d) as char];
    SerialInSerial(10 * n + d, n);
  }

  // ---- The stored rows ------------------------------------------------------------------------

  type Key = (nat, int)

  datatype Answer = Reported(action: Action) | HookRaised | ClashRaised | Failed(status: nat)

  /** What the staging hook does: it may raise, and an IntegrityError is a key clash. */
  datatype Hook = Stages | Raises | KeyClash

  function DayOf(rows: map<Key, Row>, key: Key): Option<Row> {
    if key in rows then Some(rows[key]) else None
  }

  class StudentSheet {
    var rows: map<Key, Row>
    var staged: seq<(Key, Action)>

    /**
      A device punch. The hook stages a notification in the same transaction and may raise;
      `meanwhile` is a row another writer inserts before this one's insert is flushed. The
      handler of that key clash also catches a key clash of a new row's hook.
     */
    method ProcessAttendancePunch(s: Settings, key: Key, p: Punch, hook: Hook, meanwhile: Option<Row>)
      returns (answer: Answer)
      modifies this
      ensures answer.Reported? || answer == HookRaised
      ensures forall k :: k != key ==> DayOf(rows, k) == DayOf(old(rows), k)
      ensures var day := DayOf(old(rows), key);
        var (action, after) := Punched(s, day, p);
        if day.None? && meanwhile.Some? then
          answer == Reported(AlreadyCheckedIn) && DayOf(rows, key) == meanwhile && staged == old(staged)
        else if day.None? && hook == KeyClash then
          answer == Reported(AlreadyCheckedIn) && rows == old(rows) && staged == old(staged)
        else if action in {CheckIn, CheckOut} && hook != Stages then
          answer == HookRaised && rows == old(rows) && staged == old(staged)
        else
          answer == Reported(action) && DayOf(rows, key) == after
          && staged == old(staged) + if action in {CheckIn, CheckOut} then [(key, action)] else []
      ensures answer.Reported? && !(DayOf(old(rows), key).None? && (meanwhile.Some? || hook == KeyClash)) ==>
        Accounts(s, DayOf(old(rows), key), p, answer.action, DayOf(rows, key))
    {
      PunchAccounts(s, DayOf(rows, key), p);
      var day := DayOf(rows, key);
      if Seen(day, p) {
        return Reported(Duplicate);
      }
      if day.None? && meanwhile.Some? {
        rows := rows[key := meanwhile.value];
        return Reported(AlreadyCheckedIn);
      }
      var (action, after) := Punched(s, day, p);
      if action == AlreadyCheckedIn {
        return Reported(action);
      }
      if day.None? && hook == KeyClash {
        return Reported(AlreadyCheckedIn);
      }
      if hook != Stages {
        return HookRaised;
      }
      rows, staged := rows[key := after.value], staged + [(key, action)];
      answer := Reported(action);
    }

    /**
      The scanner endpoint with its refusals. `meanwhile` is a row another writer inserts before
      this one's insert is committed; unlike the device punch, nothing handles the key clash.
     */
    method ProcessStudentScan(s: Settings, schoolKnown: bool, deviceGiven: bool, deviceValid: bool,
                              student: Option<nat>, suspended: bool, date: int, time: nat, serial: Option<nat>,
                              meanwhile: Option<Row>)
      returns (answer: Answer)
      modifies this`rows
      ensures answer != HookRaised
      ensures answer.Failed? <==>
        (!schoolKnown && (!deviceGiven || !deviceValid)) || student.None? || suspended
      ensures answer.Failed? ==> rows == old(rows)
      ensures answer == ClashRaised <==>
        !answer.Failed? && DayOf(old(rows), (student.value, date)).None? && meanwhile.Some?
      ensures answer == ClashRaised ==> rows == old(rows)[(student.value, date) := meanwhile.value]
      ensures answer.Reported? ==>
        var key := (student.value, date);
        && (answer.action, DayOf(rows, key)) == Scanned(s, DayOf(old(rows), key), time, serial)
        && forall k :: k != key ==> DayOf(rows, k) == DayOf(old(rows), k)
      ensures answer.Failed? ==>
        && (answer.status == 400 <==> !schoolKnown && !deviceGiven)
        && (answer.status == 404 <==> student.None? && (schoolKnown || (deviceGiven && deviceValid)))
        && answer.status in {400, 403, 404}
      ensures answer.Reported? ==>
        var key := (student.value, date);
        var (day, after) := (DayOf(old(rows), key), DayOf(rows, key));
        && (answer.action in {Duplicate, CheckIn} ==>
              Accounts(s, day, ScanPunch(time, serial), answer.action, after))
        && (answer.action == CheckIn ==> after.value.source == Some(if serial.Some? then "hikvision" else "api"))
        && (answer.action == CheckOut ==>
              && s.departure.Some? && s.departure.value <= time
              && after == if day.value.checkOut.Some? then day else Some(day.value.(checkOut := Some(time), notes := after.value.notes)))
        && (answer.action == AlreadyCheckedIn ==> after == day && (s.departure.Some? ==> time < s.departure.value))
    {
      if student.Some? {
        ScanAgreesWithPunch(s, DayOf(rows, (student.value, date)), time, serial);
        PunchAccounts(s, DayOf(rows, (student.value, date)), ScanPunch(time, serial));
      }
      if !schoolKnown && !deviceGiven {
        return Failed(400);
      }
      if !schoolKnown && !deviceValid {
        return Failed(403);
      }
      if student.None? {
        return Failed(404);
      }
      if suspended {
        return Failed(403);
      }
      var key := (student.value, date);
      if key !in rows && meanwhile.Some? {
        rows := rows[key := meanwhile.value];
        return ClashRaised;
      }
      var (action, after) := Scanned(s, DayOf(rows, key), time, serial);
      rows := rows[key := after.value];
      answer := Reported(action);
    }
  }
}
