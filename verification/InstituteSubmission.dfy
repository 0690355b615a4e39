/**
  Opening a lesson's session and recording its attendance
  (app/services/institute_attendance.py): racing openers end on one session, and a
  submission overrides the statuses it names, all or nothing.
 */
module InstituteSubmission {
  import opened Wrappers
  import opened Text

  // ---- Racing openers ----------------------------------------------------------------

  /** An opener of one lesson: before its lookup, about to insert, after losing the race, or with a session. */
  datatype Opener = Looking | Inserting | Losing | Opened(session: nat) | Failed

  /** The session stored for the lesson, the next id, and the openers. */
  datatype Race = Race(stored: Option<nat>, nextId: nat, openers: seq<Opener>)

  /** One database round trip of opener i. */
  function RaceStep(r: Race, i: nat): Race {
    if i >= |r.openers| then r
    else
      match r.openers[i]
      case Looking =>
        r.(openers := r.openers[i := if r.stored.Some? then Opened(r.stored.value) else Inserting])
      case Inserting =>
        if r.stored.Some? then r.(openers := r.openers[i := Losing])
        else Race(Some(r.nextId), r.nextId + 1, r.openers[i := Opened(r.nextId)])
      case Losing =>
        r.(openers := r.openers[i := if r.stored.Some? then Opened(r.stored.value) else Failed])
      case _ => r
  }

  function RunRace(r: Race, turns: seq<nat>): Race {
    if turns == [] then r else RaceStep(RunRace(r, turns[..|turns| - 1]), turns[|turns| - 1])
  }

  ghost predicate OneSession(r: Race) {
    forall i :: 0 <= i < |r.openers| ==>
      && r.openers[i] != Failed
      && (r.openers[i] == Losing ==> r.stored.Some?)
      && (r.openers[i].Opened? ==> r.stored == Some(r.openers[i].session))
  }

  /** However the openers interleave, none fails, and all that are done hold the one stored session. */
  lemma {:induction false} OpenersConverge(r: Race, turns: seq<nat>)
    requires OneSession(r)
    ensures OneSession(RunRace(r, turns)) && |RunRace(r, turns).openers| == |r.openers|
    ensures r.stored.Some? ==> RunRace(r, turns).stored == r.stored
    decreases |turns|
  {
    if turns != [] {
      OpenersConverge(r, turns[..|turns| - 1]);
      var before := RunRace(r, turns[..|turns| - 1]);
      var i := turns[|turns| - 1];
      if i < |before.openers| {
        assert before.openers[i] != Failed;
      }
    }
  }

  /** Three turns are enough for an opener to be done. */
  lemma ThreeTurnsOpen(r: Race, i: nat)
    requires OneSession(r) && i < |r.openers|
    ensures var after := RaceStep(RaceStep(RaceStep(r, i), i), i);
      i < |after.openers| && after.openers[i] == Opened(after.stored.value) && after.stored.Some?
  {
    assert r.openers[i] != Failed;
  }

  // ---- Cleaning a submission ---------------------------------------------------------

  /** What int() makes of a submitted key; it may be negative, and then no student has it. */
  datatype StudentId = StudentId(id: int)

  datatype Status = Present | Absent | Late | Excused

  datatype Cleaned = Good(statuses: map<StudentId, Status>) | BadStudent | BadStatus

  function Parse(s: string): Option<Status> {
    if s == "present" then Some(Present)
    else if s == "absent" then Some(Absent)
    else if s == "late" then Some(Late)
    else if s == "excused" then Some(Excused)
    else None
  }

  function NameOf(status: Status): string {
    match status
    case Present => "present"
    case Absent => "absent"
    case Late => "late"
    case Excused => "excused"
  }

  /** Exactly the four names are read, each as its own status. */
  lemma NamesAreRead(s: string, status: Status)
    ensures Parse(s) == Some(status) <==> s == NameOf(status)
    ensures Parse(s).None? <==> s !in {"present", "absent", "late", "excused"}
  {
  }

  /** An entry: the student id if the key is a number, and the submitted text. */
  type Entry = (Option<StudentId>, string)

  predicate Blank(e: Entry) {
    Strip(e.1) == ""
  }

  /** The key is no number, or the text is neither empty nor, apart from space around it, one of the names. */
  predicate Bad(e: Entry) {
    e.0.None? || (HasText(e.1) && Strip(e.1) !in {"present", "absent", "late", "excused"})
  }

  lemma EntryIsReadExactly(e: Entry)
    ensures Blank(e) <==> !HasText(e.1)
    ensures Bad(e) <==> e.0.None? || (!Blank(e) && Parse(Strip(e.1)).None?)
  {
    StripKeepsText(e.1);
    NamesAreRead(Strip(e.1), Present);
  }

  /** One entry on top of those cleaned before it. */
  function CleanOne(before: Cleaned, e: Entry): Cleaned {
    if !before.Good? then before
    else if e.0.None? then BadStudent
    else if Blank(e) then before
    else if Parse(Strip(e.1)).None? then BadStatus
    else Good(before.statuses[e.0.value := Parse(Strip(e.1)).value])
  }

  function Clean(entries: seq<Entry>): Cleaned {
    if entries == [] then Good(map[]) else CleanOne(Clean(entries[..|entries| - 1]), entries[|entries| - 1])
  }

  /** The last non-blank entry of the student, if any. */
  function LastStatus(entries: seq<Entry>, student: StudentId): Option<Status> {
    if entries == [] then None
    else
      var e := entries[|entries| - 1];
      if e.0 == Some(student) && !Blank(e) then Parse(Strip(e.1))
      else LastStatus(entries[..|entries| - 1], student)
  }

  /** Cleaning refuses exactly the submissions with a bad entry, and otherwise keeps each student's last status. */
  lemma {:induction false} CleanKeepsLastStatuses(entries: seq<Entry>)
    ensures Clean(entries).Good? <==> forall i :: 0 <= i < |entries| ==> !Bad(entries[i])
    ensures Clean(entries).Good? ==> forall x ::
      LastStatus(entries, x) == (if x in Clean(entries).statuses then Some(Clean(entries).statuses[x]) else None)
    decreases |entries|
  {
    if entries != [] {
      var shorter, e := entries[..|entries| - 1], entries[|entries| - 1];
      CleanKeepsLastStatuses(shorter);
      EntryIsReadExactly(e);
      assert forall i :: 0 <= i < |shorter| ==> shorter[i] == entries[i];
    }
  }

  // ---- Recording -----------------------------------------------------------------------

  /** A stored record with who recorded it, how and when. */
  datatype Record = Record(status: Status, source: nat, actor: nat, at: int)

  type Records = map<StudentId, Record>

  /** What the records become: named students get their status, unless they already have it. */
  function Recorded(records: Records, statuses: map<StudentId, Status>, source: nat, actor: nat, at: int): Records {
    map x | x in records.Keys + statuses.Keys ::
      if x !in statuses || (x in records && records[x].status == statuses[x]) then records[x]
      else Record(statuses[x], source, actor, at)
  }

  function Statuses(records: Records): map<StudentId, Status> {
    map x | x in records :: records[x].status
  }

  function Changed(records: Records, statuses: map<StudentId, Status>): map<StudentId, Status> {
    map x | x in statuses && (x !in records || records[x].status != statuses[x]) :: statuses[x]
  }

  /** Seen as a map from students to statuses, recording is overriding... */
  lemma RecordingOverrides(records: Records, statuses: map<StudentId, Status>, source: nat, actor: nat, at: int)
    ensures Statuses(Recorded(records, statuses, source, actor, at)) == Statuses(records) + statuses
    ensures forall x :: x in records && x !in Changed(records, statuses) ==>
      Recorded(records, statuses, source, actor, at)[x] == records[x]
  {
  }

  /** ...and submitting the same statuses again, by anyone at any time, changes no record and notifies nobody. */
  lemma ResubmissionChangesNothing(records: Records, statuses: map<StudentId, Status>, source: nat, actor: nat, at: int,
                                   source2: nat, actor2: nat, at2: int)
    ensures var once := Recorded(records, statuses, source, actor, at);
      Recorded(once, statuses, source2, actor2, at2) == once && Changed(once, statuses) == map[]
  {
  }

  /** Recording has got as far as the students in `done`. */
  ghost predicate PartlyRecorded(records: Records, statuses: map<StudentId, Status>, stamp: (nat, nat, int), done: set<StudentId>, after: Records) {
    && after.Keys == records.Keys + done
    && done <= statuses.Keys
    && forall x :: x in after ==>
         if x in done && (x !in records || records[x].status != statuses[x])
         then after[x] == Record(statuses[x], stamp.0, stamp.1, stamp.2)
         else x in records && after[x] == records[x]
  }

  /** What a successful submission leaves and reports. */
  ghost predicate SavedAs(before: Records, after: Records, statuses: map<StudentId, Status>, stamp: (nat, nat, int), r: Summary) {
    && r.Saved? && after == Recorded(before, statuses, stamp.0, stamp.1, stamp.2)
    && r.created + r.updated + r.same == |statuses.Keys|
    && r.created == |statuses.Keys - before.Keys|
    && r.created + r.updated == |Changed(before, statuses).Keys| == r.notified
  }

  lemma SizeOfParts(a: set<StudentId>, b: set<StudentId>, whole: set<StudentId>)
    requires a * b == {} && whole == a + b
    ensures |whole| == |a| + |b|
  {
  }

  lemma SizeOfMap(m: map<StudentId, Status>)
    ensures |m| == |m.Keys|
  {
  }

  /** New, updated and unchanged students make up the named ones; the first two make up the changed ones. */
  lemma SizesAddUp(named: set<StudentId>, known: set<StudentId>, changed: set<StudentId>, created: set<StudentId>, updated: set<StudentId>, same: set<StudentId>)
    requires changed <= named && created == named - known && created <= changed
    requires same == named - changed && updated == changed * known
    ensures |created| + |updated| == |changed| && |created| + |updated| + |same| == |named|
  {
    SizeOfParts(created, updated, changed);
    SizeOfParts(changed, same, named);
  }

  lemma NewStudentsChange(before: Records, statuses: map<StudentId, Status>)
    ensures Changed(before, statuses).Keys <= statuses.Keys
    ensures statuses.Keys - before.Keys <= Changed(before, statuses).Keys
  {
  }

  lemma SummaryIsRight(before: Records, after: Records, statuses: map<StudentId, Status>, stamp: (nat, nat, int),
                       created: set<StudentId>, updated: set<StudentId>, same: set<StudentId>, skipped: nat)
    requires created == statuses.Keys - before.Keys
    requires same == statuses.Keys - Changed(before, statuses).Keys
    requires updated == Changed(before, statuses).Keys * before.Keys
    requires after == Recorded(before, statuses, stamp.0, stamp.1, stamp.2)
    ensures SavedAs(before, after, statuses, stamp,
                    Saved(|created|, |updated|, |same|, |Changed(before, statuses)|, skipped))
  {
    var changed := Changed(before, statuses);
    NewStudentsChange(before, statuses);
    SizeOfMap(changed);
    SizesAddUp(statuses.Keys, before.Keys, changed.Keys, created, updated, same);
  }

  datatype Refusal =
    | UnknownSession | UnknownSource | InvalidStudent | InvalidStatus | NobodyNamed | NotInGroup
    | AllSuspended | StagingFailed | SavedElsewhere

  datatype Summary = Refused(why: Refusal) | Saved(created: nat, updated: nat, same: nat, notified: nat, skipped: nat)

  /** What the database and the other writers decide during one submission. */
  datatype Circumstances = Circumstances(
    sessionValid: bool,
    sourceValid: bool,
    eligible: set<StudentId>,
    suspended: set<StudentId>,
    notify: bool,
    outbox: bool,
    stagingFails: bool,
    commitFails: bool)

  function Effective(c: Circumstances, statuses: map<StudentId, Status>): map<StudentId, Status> {
    statuses - c.suspended
  }

  /** Why a submission is refused before anything is written. */
  function Objection(c: Circumstances, records: Records, entries: seq<Entry>): Option<Refusal> {
    if !c.sessionValid then Some(UnknownSession)
    else if !c.sourceValid then Some(UnknownSource)
    else
      match Clean(entries)
      case BadStudent => Some(InvalidStudent)
      case BadStatus => Some(InvalidStatus)
      case Good(statuses) =>
        if statuses == map[] then Some(NobodyNamed)
        else if !(statuses.Keys <= c.eligible + records.Keys) then Some(NotInGroup)
        else if Effective(c, statuses) == map[] then Some(AllSuspended)
        else None
  }

  /** The entry that cleaning stops at: the first bad one. */
  predicate FirstBad(entries: seq<Entry>, i: nat) {
    i < |entries| && Bad(entries[i]) && forall j :: 0 <= j < i ==> !Bad(entries[j])
  }

  ghost predicate Named(entries: seq<Entry>, student: StudentId) {
    LastStatus(entries, student).Some?
  }

  /** Everything can be read: the session, the source and each entry. */
  predicate Readable(c: Circumstances, entries: seq<Entry>) {
    c.sessionValid && c.sourceValid && AllGood(entries)
  }

  ghost predicate AllInGroup(c: Circumstances, records: Records, entries: seq<Entry>) {
    forall x :: Named(entries, x) ==> x in c.eligible || x in records
  }

  /** The first bad entry has a number for a student, or has none. */
  ghost predicate StopsAt(entries: seq<Entry>, numbered: bool) {
    exists i: nat :: FirstBad(entries, i) && entries[i].0.Some? == numbered
  }

  predicate AllGood(entries: seq<Entry>) {
    forall i :: 0 <= i < |entries| ==> !Bad(entries[i])
  }

  /** One entry more is the first bad one only after good ones. */
  lemma OneEntryMore(before: seq<Entry>, e: Entry, numbered: bool)
    ensures StopsAt(before + [e], numbered) <==>
      StopsAt(before, numbered) || (AllGood(before) && Bad(e) && e.0.Some? == numbered)
  {
    var all := before + [e];
    forall i: nat | i < |before| ensures all[i] == before[i] && (FirstBad(all, i) <==> FirstBad(before, i)) {
      assert forall j :: 0 <= j <= i ==> all[j] == before[j];
    }
    assert FirstBad(all, |before|) <==> AllGood(before) && Bad(e) by {
      assert forall i :: 0 <= i < |before| ==> all[i] == before[i];
    }
    if StopsAt(before, numbered) {
      var i: nat :| FirstBad(before, i) && before[i].0.Some? == numbered;
      assert FirstBad(all, i);
    }
  }

  /** Cleaning stops at the first bad entry, whose kind it tells. */
  lemma {:induction false} CleanStopsAtFirstBad(entries: seq<Entry>)
    ensures Clean(entries) == BadStudent <==> StopsAt(entries, false)
    ensures Clean(entries) == BadStatus <==> StopsAt(entries, true)
    decreases |entries|
  {
    if entries != [] {
      var before, e := entries[..|entries| - 1], entries[|entries| - 1];
      CleanStopsAtFirstBad(before);
      CleanKeepsLastStatuses(before);
      assert entries == before + [e];
      OneEntryMore(before, e, false);
      OneEntryMore(before, e, true);
      CleanTellsOneMore(Clean(before), AllGood(before), e);
    }
  }

  lemma CleanTellsOneMore(before: Cleaned, good: bool, e: Entry)
    requires before.Good? <==> good
    ensures CleanOne(before, e) == BadStudent <==> before == BadStudent || (good && Bad(e) && e.0.None?)
    ensures CleanOne(before, e) == BadStatus <==> before == BadStatus || (good && Bad(e) && e.0.Some?)
  {
    EntryIsReadExactly(e);
  }

  lemma NamedByOneMore(before: seq<Entry>, e: Entry, student: StudentId)
    requires !Bad(e)
    ensures Named(before + [e], student) <==> Named(before, student) || (HasText(e.1) && e.0 == Some(student))
  {
    EntryIsReadExactly(e);
    assert (before + [e])[..|before|] == before;
  }

  predicate AllBlank(entries: seq<Entry>) {
    forall i :: 0 <= i < |entries| ==> !HasText(entries[i].1)
  }

  /** Where every entry can be read, nobody is named exactly when every text is blank. */
  lemma {:induction false} SomebodyNamed(entries: seq<Entry>)
    requires AllGood(entries)
    ensures (forall x :: !Named(entries, x)) <==> AllBlank(entries)
    decreases |entries|
  {
    if entries != [] {
      var n := |entries| - 1;
      var before, e := entries[..n], entries[n];
      assert forall i :: 0 <= i < n ==> before[i] == entries[i];
      SomebodyNamed(before);
      assert entries == before + [e];
      forall x ensures Named(entries, x) <==> Named(before, x) || (HasText(e.1) && e.0 == Some(x)) {
        NamedByOneMore(before, e, x);
      }
      assert AllBlank(entries) <==> AllBlank(before) && !HasText(e.1);
    }
  }

  /**
    What each refusal says about the submission. It is accepted exactly when everything can be
    read, everybody named is or was in the group, and somebody named is not suspended.
   */
  ghost predicate Diagnosed(c: Circumstances, records: Records, entries: seq<Entry>, why: Option<Refusal>) {
    && (why == Some(UnknownSession) <==> !c.sessionValid)
    && (why == Some(UnknownSource) <==> c.sessionValid && !c.sourceValid)
    && (why == Some(InvalidStudent) <==>
          c.sessionValid && c.sourceValid && StopsAt(entries, false))
    && (why == Some(InvalidStatus) <==>
          c.sessionValid && c.sourceValid && StopsAt(entries, true))
    && (why == Some(NobodyNamed) <==> Readable(c, entries) && AllBlank(entries))
    && (why == Some(NotInGroup) <==> Readable(c, entries) && !AllInGroup(c, records, entries))
    && (why == Some(AllSuspended) <==>
          && Readable(c, entries) && AllInGroup(c, records, entries)
          && (exists x :: Named(entries, x)) && (forall x :: Named(entries, x) ==> x in c.suspended))
    && (why.None? <==>
          && Readable(c, entries) && AllInGroup(c, records, entries)
          && exists x :: Named(entries, x) && x !in c.suspended)
  }

  /** In a readable submission the cleaned map holds exactly the named students. */
  lemma NamedAreCleaned(entries: seq<Entry>)
    requires Clean(entries).Good?
    ensures forall x :: Named(entries, x) <==> x in Clean(entries).statuses
    ensures Clean(entries).statuses == map[] <==> !exists x :: Named(entries, x)
  {
    CleanKeepsLastStatuses(entries);
    var statuses := Clean(entries).statuses;
    assert forall x :: Named(entries, x) <==> x in statuses;
    if statuses != map[] {
      var x :| x in statuses;
      assert Named(entries, x);
    }
  }

  lemma ObjectionIsDiagnosis(c: Circumstances, records: Records, entries: seq<Entry>)
    ensures Diagnosed(c, records, entries, Objection(c, records, entries))
  {
    CleanStopsAtFirstBad(entries);
    CleanKeepsLastStatuses(entries);
    if Clean(entries).Good? {
      var statuses := Clean(entries).statuses;
      NamedAreCleaned(entries);
      SomebodyNamed(entries);
      assert statuses.Keys <= c.eligible + records.Keys <==> AllInGroup(c, records, entries);
      assert Effective(c, statuses) == map[] <==> forall x :: Named(entries, x) ==> x in c.suspended by {
        if Effective(c, statuses) != map[] {
          var x :| x in Effective(c, statuses);
          assert Named(entries, x) && x !in c.suspended;
        }
        forall x | Named(entries, x) && x !in c.suspended ensures x in Effective(c, statuses) {
        }
      }
    }
  }

  class Lesson {
    var records: Records
    /** Source, actor and time of the last submission; None while the session is not recorded. */
    var recorded: Option<(nat, nat, int)>
    /** Notification work committed with the records, and parents notified without the outbox. */
    var staged: seq<map<StudentId, Status>>
    var told: seq<map<StudentId, Status>>

    method CleanEntries(entries: seq<Entry>) returns (cleaned: Cleaned)
      ensures cleaned == Clean(entries)
    {
      cleaned := Good(map[]);
      for i := 0 to |entries|
        invariant cleaned == Clean(entries[..i])
      {
        assert entries[..i + 1][..i] == entries[..i];
        cleaned := CleanOne(cleaned, entries[i]);
      }
      assert entries[..|entries|] == entries;
    }

    /** The loop over the cleaned statuses: what to store, and who is new, updated or left as they are. */
    method Apply(statuses: map<StudentId, Status>, stamp: (nat, nat, int))
      returns (after: Records, created: set<StudentId>, updated: set<StudentId>, same: set<StudentId>)
      ensures after == Recorded(records, statuses, stamp.0, stamp.1, stamp.2)
      ensures created == statuses.Keys - records.Keys
      ensures same == statuses.Keys - Changed(records, statuses).Keys
      ensures updated == Changed(records, statuses).Keys * records.Keys
    {
      after, created, updated, same := records, {}, {}, {};
      var rest := statuses.Keys;
      ghost var changed := Changed(records, statuses).Keys;
      while rest != {}
        invariant rest <= statuses.Keys && PartlyRecorded(records, statuses, stamp, statuses.Keys - rest, after)
        invariant created == (statuses.Keys - rest) - records.Keys
        invariant same == (statuses.Keys - rest) - changed
        invariant updated == (statuses.Keys - rest) * changed * records.Keys
        decreases rest
      {
        var x :| x in rest;
        if x !in records {
          created := created + {x};
          after := after[x := Record(statuses[x], stamp.0, stamp.1, stamp.2)];
        } else if records[x].status != statuses[x] {
          updated := updated + {x};
          after := after[x := Record(statuses[x], stamp.0, stamp.1, stamp.2)];
        } else {
          same := same + {x};
        }
        rest := rest - {x};
      }
    }

    /** Everything that is checked before the first write, in order. */
    method Check(c: Circumstances, entries: seq<Entry>) returns (why: Option<Refusal>, statuses: map<StudentId, Status>, skipped: nat)
      ensures Diagnosed(c, records, entries, why) && why == Objection(c, records, entries)
      ensures why.None? ==> forall x ::
        (if x in statuses then Some(statuses[x]) else None) == if x in c.suspended then None else LastStatus(entries, x)
      ensures why.None? ==> statuses == Effective(c, Clean(entries).statuses)
      ensures why.None? ==> skipped == |Clean(entries).statuses.Keys * c.suspended|
    {
      ObjectionIsDiagnosis(c, records, entries);
      CleanKeepsLastStatuses(entries);
      why, statuses, skipped := None, map[], 0;
      if !c.sessionValid {
        return Some(UnknownSession), map[], 0;
      }
      if !c.sourceValid {
        return Some(UnknownSource), map[], 0;
      }
      var cleaned := CleanEntries(entries);
      if !cleaned.Good? {
        return Some(if cleaned == BadStudent then InvalidStudent else InvalidStatus), map[], 0;
      }
      if cleaned.statuses == map[] {
        return Some(NobodyNamed), map[], 0;
      }
      if !(cleaned.statuses.Keys <= c.eligible + records.Keys) {
        return Some(NotInGroup), map[], 0;
      }
      statuses, skipped := cleaned.statuses - c.suspended, |cleaned.statuses.Keys * c.suspended|;
      if statuses == map[] {
        why := Some(AllSuspended);
      }
    }

    /** Nothing of the lesson has changed. */
    twostate predicate Untouched()
      reads this
    {
      && records == old(records) && recorded == old(recorded) && staged == old(staged) && told == old(told)
    }

    /** The promised notifications: staged with the commit, or sent by the caller afterwards. */
    method Announce(c: Circumstances, changed: map<StudentId, Status>)
      modifies this`staged, this`told
      ensures staged == old(staged) + (if c.notify && changed != map[] && c.outbox then [changed] else [])
      ensures told == old(told) + (if c.notify && changed != map[] && !c.outbox then [changed] else [])
    {
      if c.notify && changed != map[] {
        if c.outbox {
          staged := staged + [changed];
        } else {
          told := told + [changed];
        }
      }
    }

    /** Store validated statuses with the notifications they promise, in one transaction. */
    method Store(c: Circumstances, statuses: map<StudentId, Status>, skipped: nat, stamp: (nat, nat, int)) returns (r: Summary)
      modifies this
      ensures r.Refused? ==> Untouched()
      ensures var changed := Changed(old(records), statuses);
        if c.notify && changed != map[] && c.outbox && c.stagingFails then r == Refused(StagingFailed)
        else if c.commitFails then r == Refused(SavedElsewhere)
        else
          && SavedAs(old(records), records, statuses, stamp, r) && r.skipped == skipped
          && recorded == Some(stamp)
          && staged == old(staged) + (if c.notify && changed != map[] && c.outbox then [changed] else [])
          && told == old(told) + (if c.notify && changed != map[] && !c.outbox then [changed] else [])
    {
      var after, created, updated, same := Apply(statuses, stamp);
      var changed := Changed(records, statuses);
      SummaryIsRight(records, after, statuses, stamp, created, updated, same, skipped);
      if c.notify && changed != map[] && c.outbox && c.stagingFails {
        return Refused(StagingFailed);
      }
      if c.commitFails {
        return Refused(SavedElsewhere);
      }
      records, recorded := after, Some(stamp);
      Announce(c, changed);
      r := Saved(|created|, |updated|, |same|, |changed|, skipped);
    }

    /** The one write path: validated as a whole, then all of it is stored or none. */
    method SubmitAttendance(c: Circumstances, entries: seq<Entry>, stamp: (nat, nat, int)) returns (r: Summary)
      modifies this
      ensures r.Refused? ==> Untouched()
      ensures Diagnosed(c, old(records), entries, Objection(c, old(records), entries))
      ensures Objection(c, old(records), entries).Some? ==> r == Refused(Objection(c, old(records), entries).value)
      ensures Objection(c, old(records), entries).None? ==>
        var changed := Changed(old(records), Effective(c, Clean(entries).statuses));
        r.Refused? <==> c.commitFails || (c.outbox && c.stagingFails && c.notify && changed != map[])
      ensures r.Saved? ==>
        var statuses := Effective(c, Clean(entries).statuses);
        var changed := Changed(old(records), statuses);
        && SavedAs(old(records), records, statuses, stamp, r)
        && r.skipped == |Clean(entries).statuses.Keys * c.suspended|
        && recorded == Some(stamp)
        && staged == old(staged) + (if c.notify && changed != map[] && c.outbox then [changed] else [])
        && told == old(told) + (if c.notify && changed != map[] && !c.outbox then [changed] else [])
    {
      var why, statuses, skipped := Check(c, entries);
      if why.Some? {
        return Refused(why.value);
      }
      r := Store(c, statuses, skipped, stamp);
    }
  }

  // ---- Opening a session ---------------------------------------------------------------

  /** A session as it is first stored: nothing recorded yet. */
  datatype Session = Session(id: nat, instructor: Option<nat>, recorded: bool)

  class Sessions {
    var stored: map<(nat, int, nat), Session>

    /** `meanwhile` is the row a simultaneous opener commits between the lookup and the insert. */
    method GetOrCreate(key: (nat, int, nat), id: nat, instructor: Option<nat>, meanwhile: Option<Session>) returns (s: Session)
      modifies this
      ensures key in stored && s == stored[key]
      ensures forall k :: k in old(stored) ==> k in stored && stored[k] == old(stored)[k]
      ensures forall k :: k in stored && k !in old(stored) ==> k == key
      ensures key !in old(stored) ==> s == if meanwhile.Some? then meanwhile.value else Session(id, instructor, false)
    {
      if key in stored {
        return stored[key];
      }
      if meanwhile.Some? {
        stored := stored[key := meanwhile.value];
      } else {
        stored := stored[key := Session(id, instructor, false)];
      }
      s := stored[key];
    }
  }
}
