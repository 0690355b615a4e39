/**
  Telling parents about homework (app/services/homework_publish.py): post-commit calls,
  sweeps and flushes fan out pending homework concurrently, each in a transaction that
  locks the row, skips rows locked by others, and commits the notifications together with
  the row's marker.
 */
module HomeworkPublish {
  import opened Wrappers

  const DAY := 86400
  const HOUR := 3600

  /** A homework row; days are day numbers. currentYear and hasTarget stand for the checks of that name. */
  datatype Homework = Homework(
    active: bool,
    school: nat,
    currentYear: bool,
    hasTarget: bool,
    publish: int,
    due: Option<int>)

  /** A school's state and its offset from UTC in seconds. */
  datatype School = School(active: bool, offset: int)

  function LocalDate(offset: int, now: int): int {
    (now + offset) / DAY
  }

  function LocalHour(offset: int, now: int): int {
    (now + offset) % DAY / HOUR
  }

  // ---- Concurrent fan-outs -----------------------------------------------------------

  /** A worker inside a fan-out holds the lock of its row. */
  datatype Worker = Free | Holding(id: nat)

  /** The rows, the ids with a stamped marker, the committed fan-outs, and the workers. */
  datatype Store = Store(rows: map<nat, Homework>, handled: set<nat>, delivered: seq<nat>, workers: seq<Worker>)

  datatype Decision = Stage | Skip | RollBack

  datatype Step =
    | Arrive
    | Claim(w: nat, id: nat)
    | Finish(w: nat, decision: Decision)
    | Write(id: nat, row: Homework)

  predicate Held(s: Store, id: nat) {
    exists w :: 0 <= w < |s.workers| && s.workers[w] == Holding(id)
  }

  /** One database round trip; a write to a locked row waits. */
  function Next(s: Store, step: Step): Store {
    match step
    case Arrive => s.(workers := s.workers + [Free])
    case Claim(w, id) =>
      if w < |s.workers| && s.workers[w] == Free && id in s.rows && id !in s.handled && !Held(s, id) then
        s.(workers := s.workers[w := Holding(id)])
      else s
    case Finish(w, decision) =>
      if w >= |s.workers| || s.workers[w] == Free then s
      else
        var id := s.workers[w].id;
        var t := s.(workers := s.workers[w := Free]);
        if decision == Stage then t.(handled := s.handled + {id}, delivered := s.delivered + [id])
        else if decision == Skip then t.(handled := s.handled + {id})
        else t
    case Write(id, row) => if Held(s, id) then s else s.(rows := s.rows[id := row])
  }

  function Run(s: Store, steps: seq<Step>): Store {
    if steps == [] then s else Next(Run(s, steps[..|steps| - 1]), steps[|steps| - 1])
  }

  ghost predicate AtMostOnce(s: Store) {
    && (forall i, j :: 0 <= i < j < |s.delivered| ==> s.delivered[i] != s.delivered[j])
    && (forall i :: 0 <= i < |s.delivered| ==> s.delivered[i] in s.handled)
    && (forall w :: 0 <= w < |s.workers| && s.workers[w].Holding? ==>
          s.workers[w].id in s.rows && s.workers[w].id !in s.handled)
    && (forall v, w :: 0 <= v < w < |s.workers| && s.workers[v].Holding? ==> s.workers[v] != s.workers[w])
  }

  lemma NextKeepsAtMostOnce(s: Store, step: Step)
    requires AtMostOnce(s)
    ensures AtMostOnce(Next(s, step)) && s.handled <= Next(s, step).handled
  {
    var t := Next(s, step);
    if step.Finish? && step.w < |s.workers| && s.workers[step.w].Holding? {
      var id := s.workers[step.w].id;
      forall w | 0 <= w < |t.workers| && t.workers[w].Holding? ensures t.workers[w].id != id && s.workers[w] == t.workers[w] {
        assert w != step.w;
      }
    }
  }

  /** Over all interleavings a homework is fanned out at most once, and only together with its marker. */
  lemma {:induction false} FanOutsAreUnique(s: Store, steps: seq<Step>)
    requires AtMostOnce(s)
    ensures AtMostOnce(Run(s, steps)) && s.handled <= Run(s, steps).handled
    decreases |steps|
  {
    if steps != [] {
      FanOutsAreUnique(s, steps[..|steps| - 1]);
      NextKeepsAtMostOnce(Run(s, steps[..|steps| - 1]), steps[|steps| - 1]);
    }
  }

  // ---- One fan-out ----------------------------------------------------------------------

  datatype Outcome = Staged | Skipped | NotPending | NotDue | Error

  predicate Eligible(h: Homework, school: Option<School>, today: int) {
    && h.active && school.Some? && school.value.active && h.currentYear && h.hasTarget
    && (h.due.Some? ==> today <= h.due.value)
  }

  /** The clock of a missing school runs on a default offset. */
  function Today(school: Option<School>, fallback: int, now: int): int {
    LocalDate(if school.Some? then school.value.offset else fallback, now)
  }

  function HourNow(school: Option<School>, fallback: int, now: int): int {
    LocalHour(if school.Some? then school.value.offset else fallback, now)
  }

  /** What fails in a fan-out: something before its commit, or the commit, which may have taken effect. */
  datatype Fault = NoFault | Early | CommitRaises(effective: bool)

  /** How a fan-out is called, and what fails in it. */
  datatype Call = Call(now: int, enforceHour: bool, ignoreSchedule: bool, sendHour: int, fallback: int, fault: Fault)

  predicate TooEarly(h: Homework, school: Option<School>, c: Call) {
    !c.ignoreSchedule
    && (h.publish > Today(school, c.fallback, c.now) || (c.enforceHour && HourNow(school, c.fallback, c.now) < c.sendHour))
  }

  /** What is reported of a claimed row... */
  function Verdict(h: Homework, school: Option<School>, c: Call): Outcome {
    if TooEarly(h, school, c) then NotDue
    else if c.fault != NoFault then Error
    else if !Eligible(h, school, Today(school, c.fallback, c.now)) then Skipped
    else Staged
  }

  /** ...and what happens to it. */
  function Decided(h: Homework, school: Option<School>, c: Call): Decision {
    if TooEarly(h, school, c) || c.fault == Early || c.fault == CommitRaises(false) then RollBack
    else if !Eligible(h, school, Today(school, c.fallback, c.now)) then Skip
    else Stage
  }

  /** The report is what happened, unless the commit raised after taking effect. */
  lemma ReportIsTrueExactly(h: Homework, school: Option<School>, c: Call)
    ensures (Verdict(h, school, c) in {Staged, Skipped} <==> Decided(h, school, c) != RollBack)
       <==> TooEarly(h, school, c) || c.fault != CommitRaises(true)
    ensures Verdict(h, school, c) == Staged ==> Decided(h, school, c) == Stage
    ensures Verdict(h, school, c) == Skipped ==> Decided(h, school, c) == Skip
  {
  }

  /** Seconds on the school's own clock, or on the default one. */
  function Clock(school: Option<School>, c: Call): int {
    c.now + if school.Some? then school.value.offset else c.fallback
  }

  /** By that clock the publishing day has not begun, or it is not yet the hour to send. */
  predicate Ahead(h: Homework, school: Option<School>, c: Call) {
    var clock := Clock(school, c);
    !c.ignoreSchedule && (clock < h.publish * 86400 || (c.enforceHour && clock % 86400 < c.sendHour * 3600))
  }

  /** Somebody is to be told: the homework and its school are in force, and the due day is not over. */
  predicate WorthTelling(h: Homework, school: Option<School>, c: Call) {
    && h.active && h.currentYear && h.hasTarget && school.Some? && school.value.active
    && (h.due.Some? ==> Clock(school, c) < (h.due.value + 1) * 86400)
  }

  /** What an outcome says about the claimed row, and what becomes of the row. */
  predicate Told(h: Homework, school: Option<School>, c: Call, outcome: Outcome, handled: bool, delivered: bool) {
    && (outcome == NotDue <==> Ahead(h, school, c))
    && (outcome == Error <==> !Ahead(h, school, c) && c.fault != NoFault)
    && (outcome == Staged <==> !Ahead(h, school, c) && c.fault == NoFault && WorthTelling(h, school, c))
    && (outcome == Skipped <==> !Ahead(h, school, c) && c.fault == NoFault && !WorthTelling(h, school, c))
    && (handled <==> !Ahead(h, school, c) && c.fault in {NoFault, CommitRaises(true)})
    && (delivered <==> handled && WorthTelling(h, school, c))
  }

  lemma VerdictIsTold(h: Homework, school: Option<School>, c: Call)
    ensures Told(h, school, c, Verdict(h, school, c), Decided(h, school, c) != RollBack, Decided(h, school, c) == Stage)
  {
  }

  function SchoolOf(schools: map<nat, School>, h: Homework): Option<School> {
    if h.school in schools then Some(schools[h.school]) else None
  }

  predicate Acts(step: Step, w: nat) {
    (step.Claim? || step.Finish?) && step.w == w
  }

  predicate OnlyOthers(steps: seq<Step>, w: nat) {
    forall i :: 0 <= i < |steps| ==> !Acts(steps[i], w)
  }

  /** A worker's lock keeps its row as it is. */
  lemma LockHolds(s: Store, step: Step, w: nat)
    requires AtMostOnce(s) && w < |s.workers| && s.workers[w].Holding? && !Acts(step, w)
    ensures var t := Next(s, step);
      && w < |t.workers| && t.workers[w] == s.workers[w] && t.rows.Keys >= s.rows.Keys
      && t.rows[s.workers[w].id] == s.rows[s.workers[w].id]
  {
    assert Held(s, s.workers[w].id);
  }

  lemma WorkerStays(s: Store, step: Step, w: nat)
    requires w < |s.workers| && !Acts(step, w)
    ensures w < |Next(s, step).workers| && Next(s, step).workers[w] == s.workers[w]
  {
  }

  // ---- The sweep's selection ---------------------------------------------------------------

  predicate Pending(s: Store, id: nat) {
    id in s.rows && id !in s.handled && s.rows[id].active
  }

  /** Published on the school's local date, at or after the send hour there. */
  predicate Published(h: Homework, schools: map<nat, School>, now: int, hour: int) {
    && h.school in schools
    && (var offset := schools[h.school].offset;
        LocalHour(offset, now) >= hour && h.publish <= LocalDate(offset, now))
  }

  predicate DueNow(s: Store, schools: map<nat, School>, now: int, hour: int, id: nat) {
    Pending(s, id) && Published(s.rows[id], schools, now, hour)
  }

  /** What the sweep selects is what its fan-outs do not find too early. */
  lemma PublishedExactly(h: Homework, schools: map<nat, School>, now: int, hour: int, fault: Fault)
    requires h.school in schools
    ensures Published(h, schools, now, hour) <==> !Ahead(h, SchoolOf(schools, h), Call(now, true, false, hour, 0, fault))
  {
  }

  /** So due homework is unmarked, active and of a known school, and not ahead by that school's clock. */
  lemma DueExactly(s: Store, schools: map<nat, School>, now: int, hour: int, id: nat)
    ensures DueNow(s, schools, now, hour, id) <==>
      && id in s.rows && id !in s.handled && s.rows[id].active && s.rows[id].school in schools
      && !Ahead(s.rows[id], SchoolOf(schools, s.rows[id]), Call(now, true, false, hour, 0, NoFault))
  {
    if id in s.rows && s.rows[id].school in schools {
      PublishedExactly(s.rows[id], schools, now, hour, NoFault);
    }
  }

  /** The sweep goes by publish date, then id; the flush by id only. */
  predicate Sooner(s: Store, byDate: bool, a: nat, b: nat) {
    if byDate && a in s.rows && b in s.rows && s.rows[a].publish != s.rows[b].publish then s.rows[a].publish < s.rows[b].publish else a <= b
  }

  /** The sweep: schools with something published by tomorrow's UTC date, then their due homework. */
  function Selected(s: Store, schools: map<nat, School>, now: int, hour: int): set<nat> {
    var horizon := now / DAY + 1;
    var candidates := set id | id in s.rows && Pending(s, id) && s.rows[id].publish <= horizon :: s.rows[id].school;
    set id | id in s.rows && Pending(s, id) && s.rows[id].school in candidates && DueNow(s, schools, now, hour, id)
  }

  lemma DateWithin(offset: int, now: int)
    requires offset <= DAY
    ensures LocalDate(offset, now) <= now / DAY + 1
  {
  }

  lemma DateBeyond(offset: int)
    requires offset > DAY
    ensures LocalDate(offset, DAY - 1) > (DAY - 1) / DAY + 1
  {
  }

  /** The horizon of one day covers every local date exactly when no clock is more than a day ahead of UTC. */
  lemma HorizonIsWideEnoughExactly(offset: int)
    ensures (forall now :: LocalDate(offset, now) <= now / DAY + 1) <==> offset <= DAY
  {
    if offset <= DAY {
      forall now ensures LocalDate(offset, now) <= now / DAY + 1 {
        DateWithin(offset, now);
      }
    } else {
      DateBeyond(offset);
    }
  }

  /** So with offsets up to +14 hours the prefilter excludes no due homework. */
  lemma PrefilterExcludesNothing(s: Store, schools: map<nat, School>, now: int, hour: int, id: nat)
    requires forall x :: x in schools ==> schools[x].offset <= 14 * HOUR
    ensures id in Selected(s, schools, now, hour) <==> DueNow(s, schools, now, hour, id)
  {
    if DueNow(s, schools, now, hour, id) {
      DateWithin(schools[s.rows[id].school].offset, now);
      assert s.rows[id].publish <= now / DAY + 1;
    }
  }

  /** Published on an earlier day, or with a smaller id on the same day. */
  predicate OutBefore(s: Store, a: nat, b: nat) {
    && a in s.rows && b in s.rows && s.rows[a].publish <= s.rows[b].publish
    && (s.rows[a].publish == s.rows[b].publish ==> a < b)
  }

  /** The first `limit` of the selected homework, soonest first. */
  method FirstIds(s: Store, byDate: bool, selected: set<nat>, limit: nat) returns (ids: seq<nat>)
    requires selected <= s.rows.Keys
    ensures |ids| <= limit && forall i :: 0 <= i < |ids| ==> ids[i] in selected
    ensures forall i, j :: 0 <= i < j < |ids| ==> ids[i] != ids[j] && Sooner(s, byDate, ids[i], ids[j])
    ensures forall x :: x in selected && x !in ids ==>
      |ids| == limit && forall i :: 0 <= i < |ids| ==> Sooner(s, byDate, ids[i], x)
  {
    ids := [];
    var rest := selected;
    while |ids| < limit && rest != {}
      invariant |ids| <= limit && rest <= selected
      invariant forall x :: x in selected <==> x in ids || x in rest
      invariant forall i :: 0 <= i < |ids| ==> ids[i] !in rest
      invariant forall i, j :: 0 <= i < j < |ids| ==> ids[i] != ids[j] && Sooner(s, byDate, ids[i], ids[j])
      invariant forall i, x :: 0 <= i < |ids| && x in rest ==> Sooner(s, byDate, ids[i], x)
      decreases rest
    {
      var next := Soonest(s, byDate, rest);
      ids, rest := ids + [next], rest - {next};
    }
  }

  method Soonest(s: Store, byDate: bool, ids: set<nat>) returns (first: nat)
    requires ids != {} && ids <= s.rows.Keys
    ensures first in ids && forall x :: x in ids ==> Sooner(s, byDate, first, x)
  {
    first :| first in ids;
    var rest := ids - {first};
    while rest != {}
      invariant first in ids && rest <= ids && forall x :: x in ids && x !in rest ==> Sooner(s, byDate, first, x)
      decreases rest
    {
      var x :| x in rest;
      if !Sooner(s, byDate, first, x) {
        first := x;
      }
      rest := rest - {x};
    }
  }

  /** A row that another worker holds is not pending to this one, and stays pending exactly if that one rolls back. */
  lemma LockedRowStaysPendingExactly(s: Store, v: nat, w: nat, id: nat, decision: Decision)
    requires AtMostOnce(s) && v < |s.workers| && w < |s.workers| && s.workers[v] == Holding(id) && s.workers[w] == Free
    requires s.rows[id].active
    ensures Next(s, Claim(w, id)) == s
    ensures Pending(Run(s, [Claim(w, id), Finish(v, decision)]), id) <==> decision == RollBack
  {
    assert Held(s, id);
    var steps := [Claim(w, id), Finish(v, decision)];
    assert steps[..1] == [Claim(w, id)] && steps[..1][..0] == [];
    assert Run(s, steps[..1]) == Next(Run(s, []), Claim(w, id));
    assert Run(s, steps) == Next(s, Finish(v, decision));
  }

  // ---- Flushing everything that is pending ---------------------------------------------------

  function PendingIds(s: Store): set<nat> {
    set id | id in s.rows && Pending(s, id)
  }

  /** Other workers' transactions, but no new homework and no edits. */
  predicate OnlyWorkers(steps: seq<Step>) {
    forall i :: 0 <= i < |steps| ==> steps[i].Arrive? || steps[i].Claim? || steps[i].Finish?
  }

  lemma WorkersKeepRows(s: Store, step: Step)
    requires step.Arrive? || step.Claim? || step.Finish?
    ensures Next(s, step).rows == s.rows
  {
  }

  /** What happens around one fan-out: other steps before its claim and while it holds the lock, and what fails in it. */
  datatype Around = Around(before: seq<Step>, during: seq<Step>, fault: Fault)

  ghost predicate Fair(a: Around, w: nat) {
    OnlyOthers(a.before, w) && OnlyOthers(a.during, w)
  }

  ghost predicate Quiet(a: Around) {
    OnlyWorkers(a.before) && OnlyWorkers(a.during)
  }

  /** Nobody holds a lock and nobody else runs. */
  ghost predicate Alone(s: Store, around: nat -> Around) {
    (forall v :: 0 <= v < |s.workers| ==> s.workers[v] == Free) && forall k :: around(k).before == [] && around(k).during == []
  }

  ghost predicate Faultless(around: nat -> Around) {
    forall k :: around(k).fault == NoFault
  }

  predicate NoErrors(outcomes: map<nat, Outcome>) {
    forall x :: x in outcomes ==> outcomes[x] != Error
  }

  /** The attempts so far, each on another row, and what became of them. */
  ghost predicate Attempted(s: Store, attempts: seq<nat>, outcomes: map<nat, Outcome>, claims: map<nat, Store>, alone: bool) {
    && (forall i, j :: 0 <= i < j < |attempts| ==> attempts[i] != attempts[j])
    && (forall x :: x in outcomes <==> x in attempts)
    && (forall x :: x in outcomes ==> outcomes[x] != NotDue && (outcomes[x] in {Staged, Skipped} ==> x in s.handled))
    && (forall x :: x in outcomes && outcomes[x] == NotPending && x !in s.handled ==> x in claims && Held(claims[x], x))
    && (alone ==> forall x :: x in outcomes && outcomes[x] == NotPending ==> x in s.handled)
  }

  class Publisher {
    const schools: map<nat, School>
    var s: Store

    method Do(step: Step)
      requires AtMostOnce(s)
      modifies this
      ensures AtMostOnce(s) && s == Next(old(s), step) && old(s).handled <= s.handled
    {
      NextKeepsAtMostOnce(s, step);
      s := Next(s, step);
    }

    /** Other workers and writers, while this one waits for the database. */
    method Others(steps: seq<Step>, w: nat)
      requires AtMostOnce(s) && w < |s.workers| && OnlyOthers(steps, w)
      modifies this
      ensures AtMostOnce(s) && w < |s.workers| && s.workers[w] == old(s).workers[w] && old(s).handled <= s.handled
      ensures OnlyWorkers(steps) ==> s.rows == old(s).rows
      ensures steps == [] ==> s == old(s)
      ensures s.workers[w].Holding? ==>
        var id := s.workers[w].id;
        id in s.rows && id in old(s).rows && s.rows[id] == old(s).rows[id]
    {
      for i := 0 to |steps|
        invariant AtMostOnce(s) && w < |s.workers| && s.workers[w] == old(s).workers[w] && old(s).handled <= s.handled
        invariant OnlyWorkers(steps) ==> s.rows == old(s).rows
        invariant steps == [] ==> s == old(s)
        invariant s.workers[w].Holding? ==>
          var id := s.workers[w].id;
          id in s.rows && id in old(s).rows && s.rows[id] == old(s).rows[id]
      {
        WorkerStays(s, steps[i], w);
        if s.workers[w].Holding? {
          LockHolds(s, steps[i], w);
        }
        Do(steps[i]);
      }
    }

    /**
      Notify the parents of one pending homework, unless somebody else has or is about to.
      `at` is what the claim finds, `seen` the row it locks.
     */
    method FanOut(w: nat, id: nat, c: Call, before: seq<Step>, during: seq<Step>)
      returns (outcome: Outcome, ghost seen: Option<Homework>, ghost at: Store)
      requires AtMostOnce(s) && w < |s.workers| && s.workers[w] == Free && OnlyOthers(before, w) && OnlyOthers(during, w)
      modifies this
      ensures AtMostOnce(s) && w < |s.workers| && s.workers[w] == Free && old(s).handled <= s.handled
      ensures outcome == NotPending <==> seen.None?
      ensures outcome == NotPending <==> id !in at.rows || id in at.handled || Held(at, id)
      ensures old(s).handled <= at.handled <= s.handled
      ensures seen.Some? ==> id in at.rows && seen.value == at.rows[id]
      ensures seen.Some? ==> outcome == Verdict(seen.value, SchoolOf(schools, seen.value), c)
      ensures seen.Some? ==>
        Told(seen.value, SchoolOf(schools, seen.value), c, outcome, id in s.handled, id in s.delivered)
      ensures outcome in {Staged, Skipped} ==> id in s.handled && id !in old(s).handled
      ensures outcome == Staged ==> s.delivered != [] && s.delivered[|s.delivered| - 1] == id
      ensures OnlyWorkers(before) && OnlyWorkers(during) ==> s.rows == old(s).rows == at.rows
      ensures before == [] ==> at == old(s)
      ensures before == [] && during == [] ==> s.workers == old(s).workers && s.handled <= old(s).handled + {id}
    {
      Others(before, w);
      at := s;
      Do(Claim(w, id));
      if s.workers[w] == Free {
        return NotPending, None, at;
      }
      var row := s.rows[id];
      seen := Some(row);
      Others(during, w);
      outcome := Verdict(row, SchoolOf(schools, row), c);
      ReportIsTrueExactly(row, SchoolOf(schools, row), c);
      VerdictIsTold(row, SchoolOf(schools, row), c);
      assert id !in s.handled && id !in s.delivered;
      Do(Finish(w, Decided(row, SchoolOf(schools, row), c)));
    }

    /** One homework of the sweep. */
    method SweepOne(w: nat, now: int, hour: int, id: nat, a: Around) returns (outcome: Outcome)
      requires AtMostOnce(s) && w < |s.workers| && s.workers[w] == Free && Fair(a, w)
      modifies this
      ensures AtMostOnce(s) && w < |s.workers| && s.workers[w] == Free && old(s).handled <= s.handled
      ensures outcome in {Staged, Skipped} ==> id in s.handled
      ensures Quiet(a) ==> s.rows == old(s).rows
      ensures a.before == [] && a.during == [] ==> s.workers == old(s).workers && s.handled <= old(s).handled + {id}
      ensures Quiet(a) && id in old(s).rows && Published(old(s).rows[id], schools, now, hour) ==> outcome != NotDue
      ensures a == Around([], [], NoFault) && DueNow(old(s), schools, now, hour, id) && !Held(old(s), id) ==>
        outcome in {Staged, Skipped}
    {
      ghost var seen, at;
      outcome, seen, at := FanOut(w, id, Call(now, true, false, hour, 0, a.fault), a.before, a.during);
      if id in old(s).rows && old(s).rows[id].school in schools {
        PublishedExactly(old(s).rows[id], schools, now, hour, a.fault);
      }
    }

    /** The first homework that are due now. */
    method FirstDue(now: int, hour: int, limit: nat) returns (ids: seq<nat>)
      requires forall x :: x in schools ==> schools[x].offset <= 14 * HOUR
      ensures |ids| <= limit && forall i :: 0 <= i < |ids| ==> DueNow(s, schools, now, hour, ids[i])
      ensures forall i, j :: 0 <= i < j < |ids| ==> ids[i] != ids[j] && Sooner(s, true, ids[i], ids[j])
      ensures forall i, j :: 0 <= i < j < |ids| ==> OutBefore(s, ids[i], ids[j])
      ensures forall id :: DueNow(s, schools, now, hour, id) && id !in ids ==>
        |ids| == limit && forall i :: 0 <= i < |ids| ==> Sooner(s, true, ids[i], id)
    {
      var selected := Selected(s, schools, now, hour);
      forall id ensures id in selected <==> DueNow(s, schools, now, hour, id) {
        PrefilterExcludesNothing(s, schools, now, hour, id);
      }
      ids := FirstIds(s, true, selected, limit);
    }

    /** Notify up to `limit` homework that are due now, soonest first, one transaction each. */
    method SweepDue(w: nat, now: int, hour: int, limit: nat, around: nat -> Around) returns (ids: seq<nat>, outcomes: seq<Outcome>)
      requires AtMostOnce(s) && w < |s.workers| && s.workers[w] == Free
      requires (forall k :: Fair(around(k), w)) && forall x :: x in schools ==> schools[x].offset <= 14 * HOUR
      modifies this
      ensures AtMostOnce(s) && w < |s.workers| && s.workers[w] == Free && old(s).handled <= s.handled
      ensures |outcomes| == |ids| <= limit
      ensures forall i :: 0 <= i < |ids| ==> DueNow(old(s), schools, now, hour, ids[i])
      ensures forall i, j :: 0 <= i < j < |ids| ==> ids[i] != ids[j] && Sooner(old(s), true, ids[i], ids[j])
      ensures forall i, j :: 0 <= i < j < |ids| ==> OutBefore(old(s), ids[i], ids[j])
      ensures forall id :: DueNow(old(s), schools, now, hour, id) && id !in ids ==>
        |ids| == limit && forall i :: 0 <= i < |ids| ==> Sooner(old(s), true, ids[i], id)
      ensures forall i :: 0 <= i < |ids| && outcomes[i] in {Staged, Skipped} ==> ids[i] in s.handled
      ensures (forall k :: Quiet(around(k))) ==> forall i :: 0 <= i < |ids| ==> outcomes[i] != NotDue
      ensures Alone(old(s), around) && Faultless(around) ==>
        forall i :: 0 <= i < |ids| ==> outcomes[i] in {Staged, Skipped}
    {
      ids := FirstDue(now, hour, limit);
      outcomes := [];
      ghost var quiet, alone, calm := (forall k :: Quiet(around(k))), Alone(s, around), Faultless(around);
      for i := 0 to |ids|
        invariant AtMostOnce(s) && w < |s.workers| && s.workers[w] == Free && old(s).handled <= s.handled
        invariant |outcomes| == i && forall j :: 0 <= j < i && outcomes[j] in {Staged, Skipped} ==> ids[j] in s.handled
        invariant quiet ==> s.rows == old(s).rows && forall j :: 0 <= j < i ==> outcomes[j] != NotDue
        invariant alone ==> s.workers == old(s).workers && forall x :: x in s.handled ==> x in old(s).handled || x in ids[..i]
        invariant alone && calm ==> forall j :: 0 <= j < i ==> outcomes[j] in {Staged, Skipped}
      {
        assert DueNow(old(s), schools, now, hour, ids[i]);
        var outcome := SweepOne(w, now, hour, ids[i], around(i));
        outcomes := outcomes + [outcome];
        assert ids[..i + 1] == ids[..i] + [ids[i]];
      }
    }

    /** One batch of the flush. */
    method FlushBatch(w: nat, now: int, ids: seq<nat>, around: nat -> Around, attempts: seq<nat>, outcomes: map<nat, Outcome>,
                      ghost claims: map<nat, Store>, ghost alone: bool)
      returns (more: seq<nat>, all: map<nat, Outcome>, ghost found: map<nat, Store>)
      requires AtMostOnce(s) && w < |s.workers| && s.workers[w] == Free && forall k :: Fair(around(k), w) && Quiet(around(k))
      requires Attempted(s, attempts, outcomes, claims, alone) && (alone ==> Alone(s, around))
      requires forall i :: 0 <= i < |ids| ==> ids[i] !in outcomes && ids[i] in s.rows
      requires forall i, j :: 0 <= i < j < |ids| ==> ids[i] != ids[j]
      modifies this
      ensures AtMostOnce(s) && w < |s.workers| && s.workers[w] == Free && old(s).handled <= s.handled && s.rows == old(s).rows
      ensures Attempted(s, more, all, found, alone) && (alone ==> Alone(s, around))
      ensures forall x :: x in all <==> x in outcomes || x in ids
      ensures NoErrors(outcomes) && Faultless(around) ==> NoErrors(all)
    {
      more, all, found := attempts, outcomes, claims;
      for i := 0 to |ids|
        invariant AtMostOnce(s) && w < |s.workers| && s.workers[w] == Free && old(s).handled <= s.handled && s.rows == old(s).rows
        invariant Attempted(s, more, all, found, alone) && (alone ==> Alone(s, around))
        invariant forall x :: x in all <==> x in outcomes || x in ids[..i]
        invariant NoErrors(outcomes) && Faultless(around) ==> NoErrors(all)
      {
        var a := around(|more|);
        assert Fair(a, w) && Quiet(a);
        var outcome;
        ghost var at;
        outcome, at := FlushOne(w, now, ids[i], a, alone);
        more, all, found := more + [ids[i]], all[ids[i] := outcome], found[ids[i] := at];
      }
      assert ids[..|ids|] == ids;
    }

    /** One row of the flush, published or not. */
    method FlushOne(w: nat, now: int, id: nat, a: Around, ghost alone: bool) returns (outcome: Outcome, ghost at: Store)
      requires AtMostOnce(s) && w < |s.workers| && s.workers[w] == Free && Fair(a, w) && Quiet(a) && id in s.rows
      requires alone ==> a.before == [] && a.during == [] && forall v :: 0 <= v < |s.workers| ==> s.workers[v] == Free
      modifies this
      ensures AtMostOnce(s) && w < |s.workers| && s.workers[w] == Free && old(s).handled <= s.handled && s.rows == old(s).rows
      ensures outcome != NotDue && (outcome in {Staged, Skipped} ==> id in s.handled)
      ensures outcome == Error ==> a.fault != NoFault
      ensures outcome == NotPending && id !in s.handled ==> Held(at, id)
      ensures alone ==> s.workers == old(s).workers && (outcome == NotPending ==> id in s.handled)
    {
      ghost var seen;
      outcome, seen, at := FanOut(w, id, Call(now, false, true, 0, 0, a.fault), a.before, a.during);
    }

    /**
      Notify every pending homework now. It ends although rows stay pending, because each is
      attempted once; what is left pending failed, or was locked by somebody else when claimed.
     */
    method FlushPending(w: nat, now: int, batch: nat, around: nat -> Around)
      returns (attempts: seq<nat>, outcomes: map<nat, Outcome>, ghost claims: map<nat, Store>)
      requires AtMostOnce(s) && w < |s.workers| && s.workers[w] == Free && 1 <= batch
      requires forall k :: Fair(around(k), w) && Quiet(around(k))
      modifies this
      ensures AtMostOnce(s) && old(s).handled <= s.handled && s.rows == old(s).rows
      ensures forall i, j :: 0 <= i < j < |attempts| ==> attempts[i] != attempts[j]
      ensures forall id :: Pending(s, id) ==> id in attempts && id in outcomes && outcomes[id] in {Error, NotPending}
      ensures forall id :: Pending(s, id) && outcomes[id] == NotPending ==> id in claims && Held(claims[id], id)
      ensures Alone(old(s), around) ==> forall id :: Pending(s, id) ==> outcomes[id] == Error
      ensures Faultless(around) ==> forall id :: Pending(s, id) ==> outcomes[id] == NotPending
      ensures Alone(old(s), around) && Faultless(around) ==> forall id :: !Pending(s, id)
    {
      attempts, outcomes, claims := [], map[], map[];
      ghost var alone := Alone(s, around);
      while true
        invariant AtMostOnce(s) && w < |s.workers| && s.workers[w] == Free && old(s).handled <= s.handled && s.rows == old(s).rows
        invariant Attempted(s, attempts, outcomes, claims, alone) && (alone ==> Alone(s, around))
        invariant Faultless(around) ==> NoErrors(outcomes)
        decreases PendingIds(s) - outcomes.Keys
      {
        var todo := PendingIds(s) - outcomes.Keys;
        var ids := FirstIds(s, false, todo, batch);
        if ids == [] {
          assert forall id :: Pending(s, id) ==> id in PendingIds(s) && id !in todo;
          return;
        }
        ghost var before := s;
        attempts, outcomes, claims := FlushBatch(w, now, ids, around, attempts, outcomes, claims, alone);
        assert PendingIds(s) <= PendingIds(before);
        assert ids[0] in todo && ids[0] in outcomes;
      }
    }
  }
}
