/**
  Leave-to-attendance synchronisation (app/services/leave_attendance.py): approving a
  leave fills or converts day rows, revoking it undoes that, and editing its dates does
  both on the difference.
 */
module LeaveAttendance {
  import opened Wrappers
  import opened Text
  import opened DayRows

  // ---- The marker that remembers what a converted row was -------------------

  const HEAD: string := "[leave:"
  const MIDDLE: string := "|was:absent:"

  function EncodePrevAbsent(source: string, leaveId: nat, notes: Option<string>): string {
    var marker := HEAD + Decimal(leaveId) + MIDDLE + source + "]";
    Strip(marker + " " + Strip(OrEmpty(notes)))
  }

  /** t stands in s at index i. */
  predicate Holds(s: string, t: string, i: nat) {
    i + |t| <= |s| && forall k :: i <= k < i + |t| ==> s[k] == t[k - i]
  }

  /** The regular expression match: where the source starts and ends, if s has a marker. */
  function FindSource(s: string, head: string, middle: string): (r: Option<(nat, nat)>)
    ensures r.Some? ==> r.value.0 < r.value.1 < |s| && s[r.value.1] == ']'
    ensures r.Some? ==> forall k :: r.value.0 <= k < r.value.1 ==> IsWordChar(s[k])
  {
    if !Holds(s, head, 0) then None
    else
      var digits := Run(s, |head|, IsDigit);
      if digits == |head| || !Holds(s, middle, digits) then None
      else
        var start := digits + |middle|;
        var end := Run(s, start, IsWordChar);
        if end == start || end == |s| || s[end] != ']' then None else Some((start, end))
  }

  function DecodeWith(head: string, middle: string, s: string): Option<(string, Option<string>)> {
    var source := FindSource(s, head, middle);
    if source.None? then None
    else Some((s[source.value.0..source.value.1], NoneIfEmpty(Strip(s[source.value.1 + 1..]))))
  }

  function DecodePrevAbsent(notes: Option<string>): Option<(string, Option<string>)> {
    if OrEmpty(notes) == "" then None else DecodeWith(HEAD, MIDDLE, notes.value)
  }

  /** A source made of word characters: the only kind the marker can carry back. */
  predicate WordSource(source: string) {
    source != "" && forall i :: 0 <= i < |source| ==> IsWordChar(source[i])
  }

  lemma EncodedText(source: string, leaveId: nat, notes: Option<string>)
    ensures var tail := Strip(OrEmpty(notes));
      EncodePrevAbsent(source, leaveId, notes)
      == HEAD + Decimal(leaveId) + MIDDLE + source + "]" + (if tail == "" then "" else " " + tail)
  {
    var marker := HEAD + Decimal(leaveId) + MIDDLE + source + "]";
    var tail := Strip(OrEmpty(notes));
    var s := marker + " " + tail;
    assert marker[0] == HEAD[0] == '[' && marker[|marker| - 1] == ']';
    if tail == "" {
      assert s[..|s| - 1] == marker;
      assert Strip(s) == Strip(marker) == marker;
    } else {
      assert s == marker + (" " + tail);
      assert s[|s| - 1] == tail[|tail| - 1];
      assert Trimmed(s);
    }
  }

  lemma RunIs(s: string, i: nat, run: string, p: char -> bool)
    requires Holds(s, run, i) && i + |run| < |s| && !p(s[i + |run|])
    requires forall k :: 0 <= k < |run| ==> p(run[k])
    ensures Run(s, i, p) == i + |run|
  {
  }

  /** Searching a text laid out like a marker finds the source's place. */
  lemma SourceIsFound(s: string, head: string, id: string, middle: string, source: string)
    requires Holds(s, head, 0) && Holds(s, id, |head|) && Holds(s, middle, |head| + |id|)
    requires Holds(s, source, |head| + |id| + |middle|)
    requires |head| + |id| + |middle| + |source| < |s| && s[|head| + |id| + |middle| + |source|] == ']'
    requires id != "" && (forall i :: 0 <= i < |id| ==> IsDigit(id[i])) && WordSource(source)
    requires middle != "" && !IsDigit(middle[0])
    ensures FindSource(s, head, middle)
         == Some((|head| + |id| + |middle|, |head| + |id| + |middle| + |source|))
  {
    RunIs(s, |head|, id, IsDigit);
    RunIs(s, |head| + |id| + |middle|, source, IsWordChar);
  }

  lemma HoldsAppended(a: string, b: string)
    ensures Holds(a + b, b, |a|) && Holds(a + b, a, 0)
    ensures forall t, i :: Holds(a, t, i) ==> Holds(a + b, t, i)
  {
  }

  /** s is head, id, middle, source, a bracket and suffix, one after the other. */
  ghost predicate LaidOut(s: string, head: string, id: string, middle: string, source: string, suffix: string) {
    var start := |head| + |id| + |middle|;
    var end := start + |source|;
    && Holds(s, head, 0) && Holds(s, id, |head|) && Holds(s, middle, |head| + |id|) && Holds(s, source, start)
    && end < |s| && s[end] == ']' && s[end + 1..] == suffix
  }

  lemma MarkerLayout(head: string, id: string, middle: string, source: string, suffix: string)
    ensures LaidOut(head + id + middle + source + "]" + suffix, head, id, middle, source, suffix)
  {
    HoldsAppended(head, id);
    HoldsAppended(head + id, middle);
    HoldsAppended(head + id + middle, source);
    HoldsAppended(head + id + middle + source, "]");
    HoldsAppended(head + id + middle + source + "]", suffix);
  }

  lemma SpacedStrips(tail: string)
    requires Trimmed(tail)
    ensures Strip(if tail == "" then "" else " " + tail) == tail
  {
    if tail != "" {
      assert (" " + tail)[1..] == tail;
    }
  }

  /** A text laid out like a marker decodes to its source and the text behind it. */
  lemma LayoutDecodes(s: string, head: string, id: string, middle: string, source: string, suffix: string)
    requires LaidOut(s, head, id, middle, source, suffix)
    requires id != "" && (forall i :: 0 <= i < |id| ==> IsDigit(id[i])) && WordSource(source)
    requires middle != "" && !IsDigit(middle[0])
    ensures DecodeWith(head, middle, s) == Some((source, NoneIfEmpty(Strip(suffix))))
  {
    var start := |head| + |id| + |middle|;
    SourceIsFound(s, head, id, middle, source);
    HoldsSlice(s, source, start);
    DecodeFound(s, head, middle, start, start + |source|, source, suffix);
  }

  lemma HoldsSlice(s: string, t: string, i: nat)
    requires Holds(s, t, i)
    ensures s[i..i + |t|] == t
  {
  }

  lemma DecodeFound(s: string, head: string, middle: string, start: nat, end: nat, source: string, suffix: string)
    requires FindSource(s, head, middle) == Some((start, end)) && s[start..end] == source && s[end + 1..] == suffix
    ensures DecodeWith(head, middle, s) == Some((source, NoneIfEmpty(Strip(suffix))))
  {
  }

  lemma EncodedIsLaidOut(source: string, leaveId: nat, notes: Option<string>)
    ensures var tail := Strip(OrEmpty(notes));
      LaidOut(EncodePrevAbsent(source, leaveId, notes), HEAD, Decimal(leaveId), MIDDLE, source,
              if tail == "" then "" else " " + tail)
  {
    var tail := Strip(OrEmpty(notes));
    EncodedText(source, leaveId, notes);
    MarkerLayout(HEAD, Decimal(leaveId), MIDDLE, source, if tail == "" then "" else " " + tail);
  }

  /** Whatever the notes say, the marker brings back the source and the trimmed notes... */
  lemma DecodeReversesEncode(source: string, leaveId: nat, notes: Option<string>)
    requires WordSource(source)
    ensures DecodePrevAbsent(Some(EncodePrevAbsent(source, leaveId, notes)))
         == Some((source, NoneIfEmpty(Strip(OrEmpty(notes)))))
  {
    var tail := Strip(OrEmpty(notes));
    EncodedIsLaidOut(source, leaveId, notes);
    SpacedStrips(tail);
    LayoutDecodes(EncodePrevAbsent(source, leaveId, notes), HEAD, Decimal(leaveId), MIDDLE, source,
                  if tail == "" then "" else " " + tail);
  }

  /** ...and it does so exactly for sources made of word characters. */
  lemma MarkerCarriesExactlyWordSources(source: string, leaveId: nat, notes: Option<string>)
    ensures DecodePrevAbsent(Some(EncodePrevAbsent(source, leaveId, notes)))
         == Some((source, NoneIfEmpty(Strip(OrEmpty(notes)))))
       <==> WordSource(source)
  {
    if WordSource(source) {
      DecodeReversesEncode(source, leaveId, notes);
    } else {
      var d := DecodePrevAbsent(Some(EncodePrevAbsent(source, leaveId, notes)));
      assert d.Some? ==> WordSource(d.value.0);
    }
  }

  // ---- One day ---------------------------------------------------------------

  datatype Audience = Students | Employees

  /** fromDate and toDate are day numbers; None and year 0 stand for missing fields. */
  datatype Leave = Leave(id: nat, approved: bool, fromDate: Option<int>, toDate: Option<int>, year: nat)

  type Sheet = map<int, Row>

  /** An absence without a physical check-in, which an approved leave takes over. */
  predicate Convertible(who: Audience, r: Row) {
    r.status == Absent && r.checkIn.None? && !(who == Employees && IsFinalAutoAbsence(r))
  }

  predicate TakenOver(who: Audience, day: Option<Row>) {
    day.Some? && Convertible(who, day.value)
  }

  predicate LeaveManaged(r: Row) {
    r.status == OnLeave && r.source == Some("leave")
  }

  function NewLeaveRow(leave: Leave): Row {
    Row(OnLeave, Some("leave"), Some("إجازة مجازة #" + Decimal(leave.id)), None, None)
  }

  /** `rec.source or 'manual'` */
  function SourceOrManual(r: Row): string {
    if OrEmpty(r.source) == "" then "manual" else r.source.value
  }

  function Converted(leave: Leave, r: Row): Row {
    r.(notes := Some(EncodePrevAbsent(SourceOrManual(r), leave.id, r.notes)),
       status := OnLeave, source := Some("leave"))
  }

  function ApplyDay(who: Audience, leave: Leave, day: Option<Row>): Option<Row> {
    if day.None? then Some(NewLeaveRow(leave))
    else if Convertible(who, day.value) then Some(Converted(leave, day.value))
    else day
  }

  function RevokeDay(day: Option<Row>): Option<Row> {
    if day.None? || !LeaveManaged(day.value) then day
    else
      var prev := DecodePrevAbsent(day.value.notes);
      if prev.None? then None
      else Some(day.value.(status := Absent, source := Some(prev.value.0), notes := prev.value.1))
  }

  /** What a caller can check before approving: is this day given back by revoking? */
  predicate Undoable(who: Audience, day: Option<Row>) {
    day.Some? ==>
      && !LeaveManaged(day.value)
      && (Convertible(who, day.value) ==>
            && day.value.source.Some? && WordSource(day.value.source.value)
            && day.value.notes != Some("") && Trimmed(OrEmpty(day.value.notes)))
  }

  lemma NewRowHasNoMarker(leave: Leave)
    ensures DecodePrevAbsent(NewLeaveRow(leave).notes) == None
  {
    var s := NewLeaveRow(leave).notes.value;
    assert s[0] == 'إ' && HEAD[0] == '[';
  }

  /** A converted row comes back from its marker text exactly if that carries the row's own source and notes. */
  lemma TakenBack(r: Row, text: string, source: string)
    requires r.status == Absent && text != "" && source == SourceOrManual(r)
    requires DecodePrevAbsent(Some(text)) == Some((source, NoneIfEmpty(Strip(OrEmpty(r.notes))))) <==> WordSource(source)
    ensures RevokeDay(Some(r.(notes := Some(text), status := OnLeave, source := Some("leave")))) == Some(r) <==>
      && r.source.Some? && WordSource(r.source.value)
      && r.notes != Some("") && Trimmed(OrEmpty(r.notes))
  {
    var back := DecodePrevAbsent(Some(text));
    assert Strip(OrEmpty(r.notes)) == OrEmpty(r.notes) <==> Trimmed(OrEmpty(r.notes));
    assert back.Some? ==> WordSource(back.value.0);
  }

  lemma DayIsUndone(who: Audience, leave: Leave, day: Option<Row>)
    ensures RevokeDay(ApplyDay(who, leave, day)) == day <==> Undoable(who, day)
  {
    if day.None? {
      NewRowHasNoMarker(leave);
    } else if Convertible(who, day.value) {
      var r, source := day.value, SourceOrManual(day.value);
      MarkerCarriesExactlyWordSources(source, leave.id, r.notes);
      TakenBack(r, EncodePrevAbsent(source, leave.id, r.notes), source);
    }
  }

  // ---- Whole sheets ------------------------------------------------------------

  function Day(sheet: Sheet, d: int): Option<Row> {
    if d in sheet then Some(sheet[d]) else None
  }

  function Apply(who: Audience, leave: Leave, sheet: Sheet, dates: set<int>): Sheet {
    map d | d in sheet.Keys + dates :: if d in dates then ApplyDay(who, leave, Day(sheet, d)).value else sheet[d]
  }

  function Revoke(sheet: Sheet, dates: set<int>): Sheet {
    map d | d in sheet && (d in dates ==> RevokeDay(Some(sheet[d])).Some?)
      :: if d in dates then RevokeDay(Some(sheet[d])).value else sheet[d]
  }

  function Resync(who: Audience, leave: Leave, sheet: Sheet, was: set<int>, now: set<int>): Sheet {
    Apply(who, leave, Revoke(sheet, was - now), now - was)
  }

  lemma SheetsAreTheirDays(a: Sheet, b: Sheet)
    ensures a == b <==> forall d :: Day(a, d) == Day(b, d)
  {
    if forall d :: Day(a, d) == Day(b, d) {
      forall d
        ensures d in a <==> d in b
        ensures d in a && d in b ==> a[d] == b[d]
      {
        assert Day(a, d) == Day(b, d);
      }
    }
  }

  lemma DayOfApply(who: Audience, leave: Leave, sheet: Sheet, dates: set<int>, d: int)
    ensures Day(Apply(who, leave, sheet, dates), d)
         == if d in dates then ApplyDay(who, leave, Day(sheet, d)) else Day(sheet, d)
  {
  }

  lemma DayOfRevoke(sheet: Sheet, dates: set<int>, d: int)
    ensures Day(Revoke(sheet, dates), d) == if d in dates then RevokeDay(Day(sheet, d)) else Day(sheet, d)
  {
  }

  /** Revoking is the exact undo of applying if and only if every covered day is undoable. */
  lemma RevokeUndoesApply(who: Audience, leave: Leave, sheet: Sheet, dates: set<int>)
    ensures Revoke(Apply(who, leave, sheet, dates), dates) == sheet
       <==> forall d :: d in dates ==> Undoable(who, Day(sheet, d))
  {
    var back := Revoke(Apply(who, leave, sheet, dates), dates);
    forall d
      ensures Day(back, d) == Day(sheet, d) <==> (d in dates ==> Undoable(who, Day(sheet, d)))
    {
      DayOfApply(who, leave, sheet, dates, d);
      DayOfRevoke(Apply(who, leave, sheet, dates), dates, d);
      DayIsUndone(who, leave, Day(sheet, d));
    }
    SheetsAreTheirDays(back, sheet);
  }

  /** Editing the dates is the same as having approved the new dates from the start. */
  lemma ResyncIsReapply(who: Audience, leave: Leave, sheet: Sheet, was: set<int>, now: set<int>)
    ensures Resync(who, leave, Apply(who, leave, sheet, was), was, now) == Apply(who, leave, sheet, now)
       <==> forall d :: d in was - now ==> Undoable(who, Day(sheet, d))
  {
    var applied := Apply(who, leave, sheet, was);
    var edited, direct := Resync(who, leave, applied, was, now), Apply(who, leave, sheet, now);
    forall d
      ensures Day(edited, d) == Day(direct, d) <==> (d in was - now ==> Undoable(who, Day(sheet, d)))
    {
      DayOfApply(who, leave, sheet, was, d);
      DayOfApply(who, leave, sheet, now, d);
      DayOfRevoke(applied, was - now, d);
      DayOfApply(who, leave, Revoke(applied, was - now), now - was, d);
      DayIsUndone(who, leave, Day(sheet, d));
    }
    SheetsAreTheirDays(edited, direct);
  }

  predicate Affected(who: Audience, day: Option<Row>) {
    day.None? || Convertible(who, day.value)
  }

  /**
    Revocation is not tied to the leave that wrote a row: with two leaves applied, taking
    the first back leaves the second one's sheet exactly when no day they share was
    touched by the first.
   */
  lemma OverlappingLeavesInterfere(
    who: Audience, first: Leave, second: Leave, sheet: Sheet, a: set<int>, b: set<int>)
    requires forall d :: d in a ==> Undoable(who, Day(sheet, d))
    ensures Revoke(Apply(who, second, Apply(who, first, sheet, a), b), a) == Apply(who, second, sheet, b)
       <==> forall d :: d in a * b ==> !Affected(who, Day(sheet, d))
  {
    var one := Apply(who, first, sheet, a);
    var both := Apply(who, second, one, b);
    var left, wanted := Revoke(both, a), Apply(who, second, sheet, b);
    forall d
      ensures Day(left, d) == Day(wanted, d) <==> (d in a * b ==> !Affected(who, Day(sheet, d)))
    {
      DayOfApply(who, first, sheet, a, d);
      DayOfApply(who, second, one, b, d);
      DayOfApply(who, second, sheet, b, d);
      DayOfRevoke(both, a, d);
      DayIsUndone(who, first, Day(sheet, d));
      DayIsUndone(who, second, Day(sheet, d));
    }
    SheetsAreTheirDays(left, wanted);
  }

  /** Re-running an approval (the backfill route) changes nothing more. */
  lemma ApplyIsIdempotent(who: Audience, leave: Leave, sheet: Sheet, dates: set<int>)
    ensures Apply(who, leave, Apply(who, leave, sheet, dates), dates) == Apply(who, leave, sheet, dates)
  {
  }

  /**
    What an approval does to a day: an empty one becomes a leave without times, an absence that
    nobody checked into and that is not an employee's automatic one becomes a leave and keeps
    its times, and any other row stays.
   */
  lemma ApprovedDayIsOnLeave(who: Audience, leave: Leave, day: Option<Row>)
    ensures var after := ApplyDay(who, leave, day);
      var takes := day.Some? && day.value.status == Absent && day.value.checkIn == None
        && (who == Employees ==> day.value.source != Some("auto_absence"));
      && after.Some?
      && (day.None? || takes ==> after.value.status == OnLeave && after.value.source == Some("leave"))
      && (day.None? ==> after.value.checkIn == after.value.checkOut == None && DecodePrevAbsent(after.value.notes) == None)
      && (takes ==> after.value.checkIn == None && after.value.checkOut == day.value.checkOut)
      && (day.Some? && !takes ==> after == day)
  {
    NewRowHasNoMarker(leave);
  }

  /** What a revocation does: no leave-made row survives it as one, and no other row is touched. */
  lemma RevokedDayIsNoLeave(day: Option<Row>)
    ensures var after := RevokeDay(day); var made := day.Some? && day.value.status == OnLeave && day.value.source == Some("leave");
      && (!made ==> after == day)
      && (made ==> (after.None? <==> DecodePrevAbsent(day.value.notes) == None))
      && (made && after.Some? ==>
            && after.value.status == Absent
            && Some((OrEmpty(after.value.source), after.value.notes)) == DecodePrevAbsent(day.value.notes)
            && (after.value.checkIn, after.value.checkOut) == (day.value.checkIn, day.value.checkOut))
  {
  }

  /** Actual attendance wins: a row with a check-in passes through approval and revocation. */
  lemma AttendanceWins(who: Audience, leave: Leave, sheet: Sheet, dates: set<int>, d: int)
    requires d in sheet && sheet[d].checkIn.Some? && sheet[d].status != OnLeave
    ensures Day(Apply(who, leave, sheet, dates), d) == Day(Revoke(sheet, dates), d) == Some(sheet[d])
  {
  }

  // ---- The service ----------------------------------------------------------------

  predicate Ascending(dates: seq<int>) {
    forall i, j :: 0 <= i < j < |dates| ==> dates[i] < dates[j]
  }

  ghost function ToSet(dates: seq<int>): set<int> {
    set d | d in dates
  }

  predicate Within(d: int, fromDate: int, toDate: int) {
    fromDate <= d <= toDate
  }

  ghost function Range(fromDate: int, toDate: int): set<int> {
    set d | fromDate <= d <= toDate && Within(d, fromDate, toDate)
  }

  method DateRange(fromDate: int, toDate: int) returns (dates: seq<int>)
    ensures Ascending(dates) && ToSet(dates) == Range(fromDate, toDate)
  {
    dates := [];
    var d := fromDate;
    while d <= toDate
      invariant d == fromDate + |dates| && (fromDate <= toDate + 1 ==> d <= toDate + 1)
      invariant forall i :: 0 <= i < |dates| ==> dates[i] == fromDate + i && Within(dates[i], fromDate, toDate)
    {
      dates := dates + [d];
      d := d + 1;
    }
    forall x | Within(x, fromDate, toDate)
      ensures x in dates
    {
      assert dates[x - fromDate] == x;
    }
  }

  method Difference(dates: seq<int>, minus: seq<int>) returns (rest: seq<int>)
    requires Ascending(dates)
    ensures Ascending(rest) && ToSet(rest) == ToSet(dates) - ToSet(minus)
  {
    rest := [];
    for i := 0 to |dates|
      invariant Ascending(rest)
      invariant forall j :: 0 <= j < |rest| ==> rest[j] in dates[..i] && rest[j] !in minus
      invariant forall d :: d in dates[..i] && d !in minus ==> d in rest
    {
      if dates[i] !in minus {
        rest := rest + [dates[i]];
      }
    }
    assert dates[..|dates|] == dates;
    assert forall d :: d in rest ==> d in dates && d !in minus;
  }

  /** How many of the dates satisfy p. */
  ghost function Count(dates: seq<int>, p: int -> bool): nat {
    if dates == [] then 0
    else Count(dates[..|dates| - 1], p) + if p(dates[|dates| - 1]) then 1 else 0
  }

  lemma NoDates(who: Audience, leave: Leave, sheet: Sheet)
    ensures Apply(who, leave, sheet, {}) == sheet && Revoke(sheet, {}) == sheet
  {
  }

  lemma OneMoreDate(dates: seq<int>, i: nat, p: int -> bool)
    requires Ascending(dates) && i < |dates|
    ensures dates[i] !in ToSet(dates[..i]) && ToSet(dates[..i + 1]) == ToSet(dates[..i]) + {dates[i]}
    ensures Count(dates[..i + 1], p) == Count(dates[..i], p) + if p(dates[i]) then 1 else 0
  {
    assert dates[..i + 1] == dates[..i] + [dates[i]];
  }

  lemma ApplyExtends(who: Audience, leave: Leave, sheet: Sheet, done: set<int>, d: int)
    requires d !in done
    ensures var current := Apply(who, leave, sheet, done);
      && Day(current, d) == Day(sheet, d)
      && Apply(who, leave, sheet, done + {d}) == current[d := ApplyDay(who, leave, Day(sheet, d)).value]
  {
  }

  lemma RevokeExtends(sheet: Sheet, done: set<int>, d: int)
    requires d !in done
    ensures var current := Revoke(sheet, done);
      && Day(current, d) == Day(sheet, d)
      && Revoke(sheet, done + {d}) ==
         if RevokeDay(Day(sheet, d)).None? then current - {d} else current[d := RevokeDay(Day(sheet, d)).value]
  {
  }

  /** The fields every sync needs; without them it is skipped. */
  predicate Complete(leave: Leave, year: nat) {
    leave.fromDate.Some? && leave.toDate.Some? && year != 0
  }

  function EffectiveYear(who: Audience, leave: Leave, activeYear: nat): nat {
    if who == Employees && leave.year == 0 then activeYear else leave.year
  }

  /** A date is missing, or the leave has no year; an employee's then counts in the active one, if there is one. */
  predicate Incomplete(who: Audience, leave: Leave, activeYear: nat) {
    leave.fromDate == None || leave.toDate == None || (leave.year == 0 && (who == Employees ==> activeYear == 0))
  }

  /** The attendance rows of one person, in one uncommitted session. */
  class Service {
    const who: Audience
    var sheet: Sheet

    constructor (who: Audience, sheet: Sheet)
      ensures this.who == who && this.sheet == sheet
    {
      this.who, this.sheet := who, sheet;
    }

    /** The body of the apply loop: fill, convert or leave one date. */
    method ApplyDate(leave: Leave, d: int) returns (created: nat, converted: nat)
      modifies this
      ensures sheet == old(sheet)[d := ApplyDay(who, leave, Day(old(sheet), d)).value]
      ensures created == if Day(old(sheet), d).None? then 1 else 0
      ensures converted == if TakenOver(who, Day(old(sheet), d)) then 1 else 0
      ensures created + converted == 0 ==> sheet == old(sheet)
    {
      created, converted := 0, 0;
      if d !in sheet {
        sheet := sheet[d := NewLeaveRow(leave)];
        created := 1;
      } else if sheet[d].status == Absent && sheet[d].checkIn.None?
                && !(who == Employees && IsFinalAutoAbsence(sheet[d])) {
        sheet := sheet[d := Converted(leave, sheet[d])];
        converted := 1;
      } else {
        assert sheet[d := sheet[d]] == sheet;
      }
    }

    method ApplyDates(leave: Leave, dates: seq<int>) returns (created: nat, converted: nat)
      requires Ascending(dates)
      modifies this
      ensures sheet == Apply(who, leave, old(sheet), ToSet(dates))
      ensures created == Count(dates, d => Day(old(sheet), d).None?)
      ensures converted == Count(dates, d => TakenOver(who, Day(old(sheet), d)))
      ensures created + converted == 0 ==> sheet == old(sheet)
    {
      created, converted := 0, 0;
      ghost var isNew := d => Day(old(sheet), d).None?;
      ghost var isConverted := d => TakenOver(who, Day(old(sheet), d));
      assert Apply(who, leave, sheet, {}) == sheet;
      for i := 0 to |dates|
        invariant sheet == Apply(who, leave, old(sheet), ToSet(dates[..i]))
        invariant created == Count(dates[..i], isNew) && converted == Count(dates[..i], isConverted)
        invariant created + converted == 0 ==> sheet == old(sheet)
      {
        ghost var done := ToSet(dates[..i]);
        OneMoreDate(dates, i, isNew);
        OneMoreDate(dates, i, isConverted);
        ApplyExtends(who, leave, old(sheet), done, dates[i]);
        var new_, conv := ApplyDate(leave, dates[i]);
        created, converted := created + new_, converted + conv;
      }
      assert dates[..|dates|] == dates;
    }

    /** The body of the revoke loop: restore, delete or leave one date. */
    method RevokeDate(d: int) returns (deleted: nat, restored: nat)
      modifies this
      ensures var day := RevokeDay(Day(old(sheet), d));
        sheet == if day.None? then old(sheet) - {d} else old(sheet)[d := day.value]
      ensures deleted + restored == if d in old(sheet) && LeaveManaged(old(sheet)[d]) then 1 else 0
      ensures deleted + restored == 0 ==> sheet == old(sheet)
    {
      deleted, restored := 0, 0;
      if d in sheet && sheet[d].status == OnLeave && sheet[d].source == Some("leave") {
        var prev := DecodePrevAbsent(sheet[d].notes);
        if prev.Some? {
          sheet := sheet[d := sheet[d].(status := Absent, source := Some(prev.value.0), notes := prev.value.1)];
          restored := 1;
        } else {
          sheet := sheet - {d};
          deleted := 1;
        }
      } else {
        assert d in sheet ==> sheet[d := sheet[d]] == sheet;
        assert d !in sheet ==> sheet - {d} == sheet;
      }
    }

    method RevokeDates(dates: seq<int>) returns (deleted: nat, restored: nat)
      requires Ascending(dates)
      modifies this
      ensures sheet == Revoke(old(sheet), ToSet(dates))
      ensures deleted + restored == Count(dates, d => d in old(sheet) && LeaveManaged(old(sheet)[d]))
      ensures deleted + restored == 0 ==> sheet == old(sheet)
    {
      deleted, restored := 0, 0;
      ghost var isManaged := d => d in old(sheet) && LeaveManaged(old(sheet)[d]);
      assert Revoke(sheet, {}) == sheet;
      for i := 0 to |dates|
        invariant sheet == Revoke(old(sheet), ToSet(dates[..i]))
        invariant deleted + restored == Count(dates[..i], isManaged)
        invariant deleted + restored == 0 ==> sheet == old(sheet)
      {
        ghost var done := ToSet(dates[..i]);
        OneMoreDate(dates, i, isManaged);
        RevokeExtends(old(sheet), done, dates[i]);
        var del, rest := RevokeDate(dates[i]);
        deleted, restored := deleted + del, restored + rest;
      }
      assert dates[..|dates|] == dates;
    }

    /** Approved leaves are applied, others revoked; a failed commit leaves no trace. */
    method Sync(leave: Leave, activeYear: nat, commitOk: bool)
      modifies this
      ensures sheet ==
        if Incomplete(who, leave, activeYear) || !commitOk then old(sheet)
        else
          var dates := Range(leave.fromDate.value, leave.toDate.value);
          if leave.approved then Apply(who, leave, old(sheet), dates) else Revoke(old(sheet), dates)
    {
      var stored := sheet;
      if !Complete(leave, EffectiveYear(who, leave, activeYear)) {
        return;
      }
      var dates := DateRange(leave.fromDate.value, leave.toDate.value);
      var first, second;
      if leave.approved {
        first, second := ApplyDates(leave, dates);
      } else {
        first, second := RevokeDates(dates);
      }
      if (first > 0 || second > 0) && !commitOk {
        sheet := stored;
      }
    }

    /** Called when the dates of an approved leave were edited. */
    method ResyncDates(leave: Leave, oldFrom: Option<int>, oldTo: Option<int>, activeYear: nat, commitOk: bool)
      modifies this
      ensures sheet ==
        if !leave.approved || Incomplete(who, leave, activeYear)
           || oldFrom.None? || oldTo.None? || !commitOk then old(sheet)
        else Resync(who, leave, old(sheet), Range(oldFrom.value, oldTo.value),
                    Range(leave.fromDate.value, leave.toDate.value))
    {
      var stored := sheet;
      if !leave.approved {
        return;
      }
      if !Complete(leave, EffectiveYear(who, leave, activeYear)) || oldFrom.None? || oldTo.None? {
        return;
      }
      var was := DateRange(oldFrom.value, oldTo.value);
      var now := DateRange(leave.fromDate.value, leave.toDate.value);
      var removed := Difference(was, now);
      var added := Difference(now, was);
      assert removed == [] ==> ToSet(removed) == {};
      assert added == [] ==> ToSet(added) == {};
      NoDates(who, leave, sheet);
      var needsCommit := false;
      if removed != [] {
        var deleted, restored := RevokeDates(removed);
        needsCommit := deleted > 0 || restored > 0;
      }
      NoDates(who, leave, sheet);
      if added != [] {
        var created, converted := ApplyDates(leave, added);
        needsCommit := needsCommit || created > 0 || converted > 0;
      }
      if needsCommit && !commitOk {
        sheet := stored;
      }
    }
  }
}
