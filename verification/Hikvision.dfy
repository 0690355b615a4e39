/**
  Pulling a day's access events from a Hikvision device (app/services/hikvision.py): paging
  until the device has no more, keeping each employee's latest event, and accounting for
  every event exactly once.
 */
module Hikvision {
  import opened Wrappers
  import opened Text

  datatype Event = Event(employee: string, major: int, minor: int, verify: string, serial: Option<nat>)

  // ---- Paging ----------------------------------------------------------------------

  const PAGE_SIZE := 50
  const SAFETY_CAP := 2000

  /** A page of events and whether the device says MORE. */
  datatype Page = Page(events: seq<Event>, more: bool)

  /**
    A device that answers a request at a position with a non-empty stretch of its list, of
    any length up to the page size, and says MORE exactly when something is left.
   */
  ghost predicate Honest(list: seq<Event>, answer: nat -> Page) {
    forall position: nat :: position <= |list| ==>
      var page := answer(position);
      && |page.events| <= PAGE_SIZE && position + |page.events| <= |list|
      && page.events == list[position..position + |page.events|]
      && (position < |list| ==> page.events != [])
      && (page.more <==> position + |page.events| < |list|)
  }

  /** Fetching ends with any device; an honest one's list comes back from the start, whole or up to the cap. */
  method FetchEvents(answer: nat -> Page, ghost list: seq<Event>) returns (all: seq<Event>)
    ensures (forall position: nat :: |answer(position).events| <= PAGE_SIZE) ==> |all| < SAFETY_CAP + PAGE_SIZE
    ensures Honest(list, answer) ==> all <= list && |all| >= (if |list| < SAFETY_CAP then |list| else SAFETY_CAP)
  {
    all := [];
    var position := 0;
    while |all| < SAFETY_CAP
      invariant position == |all|
      invariant (forall at: nat :: |answer(at).events| <= PAGE_SIZE) ==> |all| < SAFETY_CAP + PAGE_SIZE
      invariant Honest(list, answer) ==> all <= list
      decreases SAFETY_CAP - |all|
    {
      var page := answer(position);
      assert Honest(list, answer) ==> page.events == list[position..position + |page.events|];
      all := all + page.events;
      if !page.more || page.events == [] {
        break;
      }
      position := position + |page.events|;
    }
  }

  // ---- Classifying ---------------------------------------------------------------------

  predicate IsValid(e: Event) {
    Strip(e.employee) != "" && e.major == 5 && e.minor in {75, 38} && Strip(e.verify) != ""
  }

  /** A face or a fingerprint was accepted (major 5, minor 75 or 38) for somebody, in some way. */
  ghost predicate Access(e: Event) {
    HasText(e.employee) && HasText(e.verify) && e.major == 5 && (e.minor == 75 || e.minor == 38)
  }

  lemma ValidExactly(e: Event)
    ensures IsValid(e) <==> Access(e)
  {
    StripKeepsText(e.employee);
    StripKeepsText(e.verify);
  }

  ghost function CountNoAccess(events: seq<Event>): nat {
    if events == [] then 0
    else CountNoAccess(events[..|events| - 1]) + if Access(events[|events| - 1]) then 0 else 1
  }

  /** What the sync reads out of an event: whether it counts, whose it is, and its serial, 0 when missing. */
  datatype Item = Item(valid: bool, who: string, sn: nat, serial: Option<nat>)

  function Read(e: Event): Item {
    Item(IsValid(e), Strip(e.employee), if e.serial.Some? then e.serial.value else 0, e.serial)
  }

  function ReadAll(events: seq<Event>): (r: seq<Item>)
    ensures |r| == |events| && forall i :: 0 <= i < |r| ==> r[i] == Read(events[i])
  {
    if events == [] then [] else ReadAll(events[..|events| - 1]) + [Read(events[|events| - 1])]
  }

  /** Among the first n items, k has its employee's highest serial, the earliest if several do. */
  predicate Survives(items: seq<Item>, n: nat, k: nat)
    requires k < n <= |items|
  {
    items[k].valid && forall j :: 0 <= j < n && items[j].valid && items[j].who == items[k].who ==>
      items[j].sn < items[k].sn || (items[j].sn == items[k].sn && k <= j)
  }

  datatype Class = Ignored | Latest | SkippedOlder

  function ClassOf(items: seq<Item>, n: nat, k: nat): Class
    requires k < n <= |items|
  {
    if !items[k].valid then Ignored else if Survives(items, n, k) then Latest else SkippedOlder
  }

  function Count(classes: seq<Class>, c: Class): nat {
    if classes == [] then 0
    else Count(classes[..|classes| - 1], c) + if classes[|classes| - 1] == c then 1 else 0
  }

  lemma {:induction false} CountUpdate(classes: seq<Class>, k: nat, to: Class, c: Class)
    requires k < |classes|
    ensures Count(classes[k := to], c) + (if classes[k] == c then 1 else 0) == Count(classes, c) + if to == c then 1 else 0
    decreases |classes|
  {
    var n := |classes| - 1;
    if k < n {
      CountUpdate(classes[..n], k, to, c);
      assert classes[k := to][..n] == classes[..n][k := to];
    } else {
      assert classes[k := to][..n] == classes[..n];
    }
  }

  lemma {:induction false} ClassesAddUp(classes: seq<Class>)
    ensures Count(classes, Ignored) + Count(classes, Latest) + Count(classes, SkippedOlder) == |classes|
    decreases |classes|
  {
    if classes != [] {
      ClassesAddUp(classes[..|classes| - 1]);
    }
  }

  lemma CountAppend(classes: seq<Class>, to: Class, c: Class)
    ensures Count(classes + [to], c) == Count(classes, c) + if to == c then 1 else 0
  {
    assert (classes + [to])[..|classes|] == classes;
  }

  /** The classes and the dictionary of latest items after the first n items. */
  ghost predicate Classified(items: seq<Item>, n: nat, classes: seq<Class>, latest: map<string, nat>) {
    && n == |classes| <= |items|
    && (forall k :: 0 <= k < n ==> classes[k] == ClassOf(items, n, k))
    && (forall x :: x in latest ==> latest[x] < n && Survives(items, n, latest[x]) && items[latest[x]].who == x)
    && (forall k :: 0 <= k < n && items[k].valid ==> items[k].who in latest)
  }

  lemma OneMoreInvalid(items: seq<Item>, n: nat, classes: seq<Class>, latest: map<string, nat>)
    requires Classified(items, n, classes, latest) && n < |items| && !items[n].valid
    ensures Classified(items, n + 1, classes + [Ignored], latest)
  {
    forall k | 0 <= k < n ensures Survives(items, n, k) <==> Survives(items, n + 1, k) {
    }
  }

  function CountInvalid(items: seq<Item>): nat {
    if items == [] then 0 else CountInvalid(items[..|items| - 1]) + if items[|items| - 1].valid then 0 else 1
  }

  lemma {:induction false} IgnoredAreInvalid(items: seq<Item>, classes: seq<Class>)
    requires |classes| == |items| && forall k :: 0 <= k < |items| ==> (classes[k] == Ignored <==> !items[k].valid)
    ensures Count(classes, Ignored) == CountInvalid(items)
    decreases |items|
  {
    if items != [] {
      IgnoredAreInvalid(items[..|items| - 1], classes[..|classes| - 1]);
    }
  }

  lemma {:induction false} InvalidAreNoAccess(events: seq<Event>)
    ensures CountInvalid(ReadAll(events)) == CountNoAccess(events)
    decreases |events|
  {
    if events != [] {
      var n := |events| - 1;
      ValidExactly(events[n]);
      InvalidAreNoAccess(events[..n]);
      assert ReadAll(events)[..n] == ReadAll(events[..n]);
    }
  }

  /** The n-th event is newer than every earlier one of its employee. */
  predicate Newest(items: seq<Item>, n: nat, latest: map<string, nat>)
    requires n < |items| && forall x :: x in latest ==> latest[x] < n
  {
    items[n].valid && (items[n].who in latest ==> items[latest[items[n].who]].sn < items[n].sn)
  }

  lemma NewestSurvives(items: seq<Item>, n: nat, classes: seq<Class>, latest: map<string, nat>)
    requires Classified(items, n, classes, latest) && n < |items| && Newest(items, n, latest)
    ensures Survives(items, n + 1, n)
  {
    forall j | 0 <= j < n && items[j].valid && items[j].who == items[n].who
      ensures items[j].sn < items[n].sn
    {
      assert items[j].who == items[latest[items[n].who]].who;
    }
  }

  /** Only the employee's latest event so far gives way. */
  lemma NewestReplaces(items: seq<Item>, n: nat, classes: seq<Class>, latest: map<string, nat>, k: nat)
    requires Classified(items, n, classes, latest) && k < n < |items| && Newest(items, n, latest)
    ensures var x := items[n].who;
      && (Survives(items, n + 1, k) <==> Survives(items, n, k) && items[k].who != x)
      && (items[k].who == x && Survives(items, n, k) ==> x in latest && k == latest[x])
      && (x in latest && k == latest[x] ==> Survives(items, n, k) && items[k].who == x)
  {
    var x := items[n].who;
    if items[k].valid && items[k].who == x {
      assert items[latest[x]].who == items[k].who && items[k].who == items[latest[x]].who;
      assert items[n].who == items[k].who;
    }
  }

  /** A valid event whose employee has no event yet, or an older one, becomes the latest. */
  lemma OneMoreLatest(items: seq<Item>, n: nat, classes: seq<Class>, latest: map<string, nat>)
    requires Classified(items, n, classes, latest) && n < |items| && Newest(items, n, latest)
    ensures var x := items[n].who;
      var marked := if x in latest then classes[latest[x] := SkippedOlder] else classes;
      Classified(items, n + 1, marked + [Latest], latest[x := n])
  {
    var x := items[n].who;
    var marked := if x in latest then classes[latest[x] := SkippedOlder] else classes;
    NewestSurvives(items, n, classes, latest);
    forall k | 0 <= k < n ensures (marked + [Latest])[k] == ClassOf(items, n + 1, k) {
      NewestReplaces(items, n, classes, latest, k);
    }
    forall y | y in latest && y != x ensures Survives(items, n + 1, latest[y]) {
      NewestReplaces(items, n, classes, latest, latest[y]);
    }
  }

  lemma OneMoreOlder(items: seq<Item>, n: nat, classes: seq<Class>, latest: map<string, nat>, x: string)
    requires Classified(items, n, classes, latest) && n < |items| && items[n].valid && x == items[n].who
    requires x in latest && items[n].sn <= items[latest[x]].sn
    ensures Classified(items, n + 1, classes + [SkippedOlder], latest)
  {
    assert items[latest[x]].who == items[n].who;
    forall k | 0 <= k < n ensures Survives(items, n + 1, k) <==> Survives(items, n, k) {
      if Survives(items, n, k) && items[k].who == x {
        assert items[latest[x]].who == items[k].who && items[k].who == items[latest[x]].who;
      }
    }
  }

  datatype Tally = Tally(fetched: nat, invalid: nat, older: nat, valid: nat)

  /** The employees in the order of their first valid events, as a dictionary keeps its keys. */
  ghost predicate Ordered(order: seq<string>, latest: map<string, nat>) {
    && (forall x :: x in order <==> x in latest)
    && (forall i, j :: 0 <= i < j < |order| ==> order[i] != order[j])
  }

  /** The counters agree with the classes. */
  predicate Counted(classes: seq<Class>, order: seq<string>, invalid: nat, older: nat) {
    invalid == Count(classes, Ignored) && older == Count(classes, SkippedOlder) && |order| == Count(classes, Latest)
  }

  /** What phase one keeps while it goes through the events. */
  datatype Progress = Progress(classes: seq<Class>, latest: map<string, nat>, order: seq<string>, invalid: nat, older: nat)

  ghost predicate Sound(items: seq<Item>, n: nat, p: Progress) {
    Classified(items, n, p.classes, p.latest) && Ordered(p.order, p.latest) && Counted(p.classes, p.order, p.invalid, p.older)
  }

  /** A valid event of an employee who has one already replaces it or is skipped. */
  method ClassifyAgain(items: seq<Item>, n: nat, p: Progress) returns (q: Progress)
    requires n < |items| && Sound(items, n, p) && items[n].valid && items[n].who in p.latest
    ensures Sound(items, n + 1, q)
  {
    var x := items[n].who;
    var k := p.latest[x];
    if items[n].sn > items[k].sn {
      OneMoreLatest(items, n, p.classes, p.latest);
      ReplaceLatest(p.classes, k);
      q := p.(classes := p.classes[k := SkippedOlder] + [Latest], latest := p.latest[x := n], older := p.older + 1);
    } else {
      OneMoreOlder(items, n, p.classes, p.latest, x);
      CountAll(p.classes, SkippedOlder);
      q := p.(classes := p.classes + [SkippedOlder], older := p.older + 1);
    }
  }

  /** A valid event of an employee who has none yet is the latest. */
  method ClassifyFirst(items: seq<Item>, n: nat, p: Progress) returns (q: Progress)
    requires n < |items| && Sound(items, n, p) && items[n].valid && items[n].who !in p.latest
    ensures Sound(items, n + 1, q)
  {
    var x := items[n].who;
    OneMoreLatest(items, n, p.classes, p.latest);
    CountAll(p.classes, Latest);
    q := p.(classes := p.classes + [Latest], latest := p.latest[x := n], order := p.order + [x]);
    assert Ordered(q.order, q.latest);
  }

  lemma IgnoringIsSound(items: seq<Item>, n: nat, p: Progress)
    requires n < |items| && Sound(items, n, p) && !items[n].valid
    ensures Sound(items, n + 1, p.(classes := p.classes + [Ignored], invalid := p.invalid + 1))
  {
    OneMoreInvalid(items, n, p.classes, p.latest);
    CountAll(p.classes, Ignored);
  }

  /** One event of phase one. */
  method ClassifyOne(items: seq<Item>, n: nat, p: Progress) returns (q: Progress)
    requires n < |items| && Sound(items, n, p)
    ensures Sound(items, n + 1, q)
  {
    if !items[n].valid {
      IgnoringIsSound(items, n, p);
      q := p.(classes := p.classes + [Ignored], invalid := p.invalid + 1);
    } else if items[n].who !in p.latest {
      q := ClassifyFirst(items, n, p);
    } else {
      q := ClassifyAgain(items, n, p);
    }
  }

  /** Phase one: every event is ignored, older than another of its employee, or one of the valid events. */
  method Classify(items: seq<Item>) returns (p: Progress, t: Tally)
    ensures Sound(items, |items|, p)
    ensures t == Tally(|items|, Count(p.classes, Ignored), Count(p.classes, SkippedOlder), |p.order|)
    ensures t.fetched == t.invalid + t.older + t.valid
  {
    p := Progress([], map[], [], 0, 0);
    for n := 0 to |items|
      invariant Sound(items, n, p)
    {
      p := ClassifyOne(items, n, p);
    }
    ClassesAddUp(p.classes);
    t := Tally(|items|, p.invalid, p.older, |p.order|);
  }

  lemma CountAll(classes: seq<Class>, to: Class)
    ensures forall c :: Count(classes + [to], c) == Count(classes, c) + if to == c then 1 else 0
  {
    forall c ensures Count(classes + [to], c) == Count(classes, c) + if to == c then 1 else 0 {
      CountAppend(classes, to, c);
    }
  }

  lemma ReplaceLatest(classes: seq<Class>, k: nat)
    requires k < |classes| && classes[k] == Latest
    ensures var after := classes[k := SkippedOlder] + [Latest];
      && Count(after, Ignored) == Count(classes, Ignored) && Count(after, Latest) == Count(classes, Latest)
      && Count(after, SkippedOlder) == Count(classes, SkippedOlder) + 1
  {
    CountAll(classes[k := SkippedOlder], Latest);
    CountUpdate(classes, k, SkippedOlder, Ignored);
    CountUpdate(classes, k, SkippedOlder, Latest);
    CountUpdate(classes, k, SkippedOlder, SkippedOlder);
  }

  // ---- Processing the latest items ------------------------------------------------------

  datatype LogStatus = Raw | Done | NoMapping | Failed

  /** What process_student_scan reports. */
  datatype Scan = Transition | AlreadyIn | Repeated | Refused | AnythingElse

  /** What the tables and the other sync threads say about one event. */
  datatype Circumstance = Circumstance(raced: bool, mapped: bool, studentExists: bool, scan: Scan)

  datatype Result = Processed | AlreadyAttended | Duplicate | Unmatched | Error

  /** The event is new to this thread: not done before, not taken by another one, and it has a serial. */
  predicate Fresh(log: Option<LogStatus>, serial: Option<nat>, c: Circumstance) {
    serial.Some? && !c.raced && log != Some(Done)
  }

  /** What a result says about the event, and what it leaves in the log. */
  predicate Settled(before: Option<LogStatus>, serial: Option<nat>, c: Circumstance, r: Result, after: Option<LogStatus>) {
    var known := Fresh(before, serial, c) && c.mapped && c.studentExists;
    && (r == Unmatched <==> Fresh(before, serial, c) && !c.mapped)
    && (r == Error <==> (Fresh(before, serial, c) && c.mapped && !c.studentExists) || (known && c.scan == Refused))
    && (r == Processed <==> known && c.scan in {Transition, AnythingElse})
    && (r == AlreadyAttended <==> known && c.scan == AlreadyIn)
    && (r == Duplicate <==> !Fresh(before, serial, c) || (known && c.scan == Repeated))
    && (!Fresh(before, serial, c) ==> after == before)
    && (after == Some(Done) <==> before == Some(Done) || (known && c.scan != Refused))
    && (Fresh(before, serial, c) ==> (after == Some(NoMapping) <==> r == Unmatched) && (after == Some(Failed) <==> r == Error))
  }

  /** The event's result and its log row afterwards; a log row needs a serial, so without one the insert fails. */
  function Settle(log: Option<LogStatus>, serial: Option<nat>, c: Circumstance): (Result, Option<LogStatus>) {
    if log == Some(Done) then (Duplicate, log)
    else if c.raced || serial.None? then (Duplicate, log)
    else if !c.mapped then (Unmatched, Some(NoMapping))
    else if !c.studentExists then (Error, Some(Failed))
    else
      match c.scan
      case Transition => (Processed, Some(Done))
      case AlreadyIn => (AlreadyAttended, Some(Done))
      case Repeated => (Duplicate, Some(Done))
      case Refused => (Error, Some(Failed))
      case AnythingElse => (Processed, Some(Done))
  }

  function LogOf(log: map<nat, LogStatus>, serial: Option<nat>): Option<LogStatus> {
    if serial.Some? && serial.value in log then Some(log[serial.value]) else None
  }

  ghost predicate OthersSame(before: map<nat, LogStatus>, after: map<nat, LogStatus>, serial: Option<nat>) {
    forall s :: Some(s) != serial ==> (s in after <==> s in before) && (s in before ==> after[s] == before[s])
  }

  datatype Outcomes = Outcomes(processed: nat, already: nat, duplicate: nat, unmatched: nat, error: nat)

  function Total(o: Outcomes): nat {
    o.processed + o.already + o.duplicate + o.unmatched + o.error
  }

  function CountOf(results: seq<Result>, r: Result): nat {
    if results == [] then 0
    else CountOf(results[..|results| - 1], r) + if results[|results| - 1] == r then 1 else 0
  }

  /** Each counter is the number of results of its kind. */
  predicate Agrees(o: Outcomes, results: seq<Result>) {
    && o.processed == CountOf(results, Processed) && o.already == CountOf(results, AlreadyAttended)
    && o.duplicate == CountOf(results, Duplicate) && o.unmatched == CountOf(results, Unmatched)
    && o.error == CountOf(results, Error)
  }

  lemma {:induction false} ResultsAddUp(results: seq<Result>)
    ensures CountOf(results, Processed) + CountOf(results, AlreadyAttended) + CountOf(results, Duplicate)
      + CountOf(results, Unmatched) + CountOf(results, Error) == |results|
    decreases |results|
  {
    if results != [] {
      ResultsAddUp(results[..|results| - 1]);
    }
  }

  /** The counter of the result goes up. */
  method CountResult(o: Outcomes, results: seq<Result>, r: Result) returns (p: Outcomes)
    requires Agrees(o, results)
    ensures Agrees(p, results + [r])
  {
    assert (results + [r])[..|results|] == results;
    match r
    case Processed => p := o.(processed := o.processed + 1);
    case AlreadyAttended => p := o.(already := o.already + 1);
    case Duplicate => p := o.(duplicate := o.duplicate + 1);
    case Unmatched => p := o.(unmatched := o.unmatched + 1);
    case Error => p := o.(error := o.error + 1);
  }

  class Device {
    /** The device's event log by serial. */
    var log: map<nat, LogStatus>

    /** Phase two for one event. */
    method SettleEvent(serial: Option<nat>, c: Circumstance) returns (r: Result)
      modifies this
      ensures r == Settle(LogOf(old(log), serial), serial, c).0
      ensures LogOf(log, serial) == Settle(LogOf(old(log), serial), serial, c).1
      ensures OthersSame(old(log), log, serial)
      ensures Settled(LogOf(old(log), serial), serial, c, r, LogOf(log, serial))
    {
      var before := LogOf(log, serial);
      if before == Some(Done) {
        return Duplicate;
      }
      if c.raced || serial.None? {
        return Duplicate;
      }
      log := log[serial.value := Raw];
      if !c.mapped {
        log := log[serial.value := NoMapping];
        return Unmatched;
      }
      if !c.studentExists {
        log := log[serial.value := Failed];
        return Error;
      }
      match c.scan
      case Transition =>
        log, r := log[serial.value := Done], Processed;
      case AlreadyIn =>
        log, r := log[serial.value := Done], AlreadyAttended;
      case Repeated =>
        log, r := log[serial.value := Done], Duplicate;
      case Refused =>
        log, r := log[serial.value := Failed], Error;
      case AnythingElse =>
        log, r := log[serial.value := Done], Processed;
    }

    method SettleNext(serial: Option<nat>, c: Circumstance, ghost start: map<nat, LogStatus>) returns (r: Result)
      requires KeepsDone(start, log)
      modifies this
      ensures KeepsDone(start, log) && (LogOf(start, serial) == Some(Done) ==> r == Duplicate)
      ensures OthersSame(old(log), log, serial)
      ensures Settled(LogOf(old(log), serial), serial, c, r, LogOf(log, serial))
    {
      ghost var before := log;
      r := SettleEvent(serial, c);
      DoneStays(start, before, log, serial, c);
    }

    /** Phase two: each employee's latest event is settled, once. */
    method SettleAll(serials: seq<Option<nat>>, around: nat -> Circumstance)
      returns (o: Outcomes, results: seq<Result>, ghost logs: seq<map<nat, LogStatus>>)
      modifies this
      ensures |results| == |serials| && Agrees(o, results)
      ensures forall i :: 0 <= i < |serials| && LogOf(old(log), serials[i]) == Some(Done) ==> results[i] == Duplicate
      ensures KeepsDone(old(log), log)
      ensures logs != [] && logs[0] == old(log) && logs[|logs| - 1] == log && SettledInTurn(serials, around, results, logs)
    {
      o, results := Outcomes(0, 0, 0, 0, 0), [];
      logs := [log];
      for i := 0 to |serials|
        invariant |results| == i && Agrees(o, results)
        invariant |logs| == i + 1 && logs[0] == old(log) && logs[i] == log
        invariant SettledInTurn(serials[..i], around, results, logs)
        invariant forall j :: 0 <= j < i && LogOf(old(log), serials[j]) == Some(Done) ==> results[j] == Duplicate
        invariant KeepsDone(old(log), log)
      {
        var r := SettleNext(serials[i], around(i), old(log));
        o := CountResult(o, results, r);
        results, logs := results + [r], logs + [log];
        assert serials[..i + 1] == serials[..i] + [serials[i]];
      }
      assert serials[..|serials|] == serials;
    }

    /** A whole sync after fetching: both accounts balance, and what was done before is only counted as duplicate. */
    method Sync(events: seq<Event>, around: nat -> Circumstance)
      returns (t: Tally, o: Outcomes, survivors: seq<nat>, results: seq<Result>, ghost logs: seq<map<nat, LogStatus>>)
      modifies this
      ensures t.fetched == |events| == t.invalid + t.older + t.valid
      ensures t.valid == Total(o) == |survivors| == |results| && Agrees(o, results)
      ensures ListsSurvivors(ReadAll(events), survivors)
      ensures forall i :: 0 <= i < |survivors| && LogOf(old(log), Serials(events, survivors)[i]) == Some(Done) ==>
        results[i] == Duplicate
      ensures KeepsDone(old(log), log)
      ensures t.invalid == CountNoAccess(events)
      ensures Representative(events, survivors)
      ensures logs != [] && logs[0] == old(log) && logs[|logs| - 1] == log
      ensures SettledInTurn(Serials(events, survivors), around, results, logs)
    {
      t, survivors := Selected(events);
      o, results, logs := SettleAll(Serials(events, survivors), around);
      ResultsAddUp(results);
    }
  }

  /** Each event met the log that the ones before it left, and touched nobody else's row. */
  ghost predicate SettledInTurn(serials: seq<Option<nat>>, around: nat -> Circumstance, results: seq<Result>,
                                logs: seq<map<nat, LogStatus>>) {
    && |results| == |serials| && |logs| == |serials| + 1
    && forall i :: 0 <= i < |serials| ==>
         && Settled(LogOf(logs[i], serials[i]), serials[i], around(i), results[i], LogOf(logs[i + 1], serials[i]))
         && OthersSame(logs[i], logs[i + 1], serials[i])
  }

  function Serials(events: seq<Event>, survivors: seq<nat>): (r: seq<Option<nat>>)
    requires forall i :: 0 <= i < |survivors| ==> survivors[i] < |events|
    ensures |r| == |survivors| && forall i :: 0 <= i < |r| ==> r[i] == events[survivors[i]].serial
  {
    seq(|survivors|, i requires 0 <= i < |survivors| => events[survivors[i]].serial)
  }

  /** Item j is of item k's employee and not older. */
  predicate Supersedes(items: seq<Item>, j: nat, k: nat)
    requires j < |items| && k < |items|
  {
    items[j].who == items[k].who && items[k].sn <= items[j].sn
  }

  /** Every valid item has one of its employee's among the survivors. */
  ghost predicate Covered(items: seq<Item>, survivors: seq<nat>)
    requires forall i :: 0 <= i < |survivors| ==> survivors[i] < |items|
  {
    forall k :: 0 <= k < |items| && items[k].valid ==>
      exists i :: 0 <= i < |survivors| && Supersedes(items, survivors[i], k)
  }

  lemma SurvivorsCover(items: seq<Item>, p: Progress, survivors: seq<nat>)
    requires Sound(items, |items|, p) && ListsSurvivors(items, survivors)
    ensures Covered(items, survivors)
  {
    forall k | 0 <= k < |items| && items[k].valid
      ensures exists i :: 0 <= i < |survivors| && Supersedes(items, survivors[i], k)
    {
      var j := p.latest[items[k].who];
      assert items[j].who == items[k].who;
      assert j in survivors;
      var i :| 0 <= i < |survivors| && survivors[i] == j;
      assert Supersedes(items, survivors[i], k);
    }
  }

  /** Phase one as a whole. */
  method LatestOnly(items: seq<Item>) returns (t: Tally, survivors: seq<nat>)
    ensures t.fetched == |items| == t.invalid + t.older + t.valid
    ensures t.invalid == CountInvalid(items) && t.valid == |survivors|
    ensures ListsSurvivors(items, survivors) && Covered(items, survivors)
  {
    var p;
    p, t := Classify(items);
    IgnoredAreInvalid(items, p.classes);
    survivors := SurvivorsInOrder(items, p);
    SurvivorsCover(items, p, survivors);
  }

  /** The survivors in terms of the events: with access only, and one for every employee with access. */
  ghost predicate Representative(events: seq<Event>, survivors: seq<nat>) {
    && (forall i :: 0 <= i < |survivors| ==> survivors[i] < |events| && Access(events[survivors[i]]))
    && (forall i, j :: 0 <= i < j < |survivors| ==>
          Strip(events[survivors[i]].employee) != Strip(events[survivors[j]].employee))
    && (forall k {:trigger Represented(events, survivors, k)} ::
          0 <= k < |events| && Access(events[k]) ==> Represented(events, survivors, k))
  }

  /** Some survivor outranks event k. */
  ghost predicate Represented(events: seq<Event>, survivors: seq<nat>, k: nat)
    requires k < |events| && forall i :: 0 <= i < |survivors| ==> survivors[i] < |events|
  {
    exists i :: 0 <= i < |survivors| && Outranks(events[survivors[i]], events[k])
  }

  /** The event is of the same employee and not older; a missing serial counts as 0. */
  predicate Outranks(e: Event, other: Event) {
    && Strip(e.employee) == Strip(other.employee)
    && (other.serial.Some? && other.serial.value > 0 ==> e.serial.Some? && other.serial.value <= e.serial.value)
  }

  lemma OneSurvivorEach(items: seq<Item>, survivors: seq<nat>, i: nat, j: nat)
    requires ListsSurvivors(items, survivors) && i < j < |survivors|
    ensures items[survivors[i]].valid && items[survivors[i]].who != items[survivors[j]].who
  {
    assert Survives(items, |items|, survivors[i]) && Survives(items, |items|, survivors[j]);
  }

  lemma AccessIsRepresented(events: seq<Event>, items: seq<Item>, survivors: seq<nat>, k: nat)
    requires items == ReadAll(events) && k < |events| && Access(events[k])
    requires (forall i :: 0 <= i < |survivors| ==> survivors[i] < |items|) && Covered(items, survivors)
    ensures Represented(events, survivors, k)
  {
    ValidExactly(events[k]);
    assert items[k] == Read(events[k]);
    var i :| 0 <= i < |survivors| && Supersedes(items, survivors[i], k);
    assert items[survivors[i]] == Read(events[survivors[i]]);
    assert Outranks(events[survivors[i]], events[k]);
  }

  lemma SurvivorHasAccess(events: seq<Event>, items: seq<Item>, k: nat)
    requires items == ReadAll(events) && k < |items| && items[k].valid
    ensures Access(events[k]) && items[k].who == Strip(events[k].employee)
  {
    assert items[k] == Read(events[k]);
    ValidExactly(events[k]);
  }

  lemma SurvivorsRepresent(events: seq<Event>, items: seq<Item>, survivors: seq<nat>)
    requires items == ReadAll(events) && ListsSurvivors(items, survivors) && Covered(items, survivors)
    ensures Representative(events, survivors)
  {
    forall i | 0 <= i < |survivors| ensures survivors[i] < |events| && Access(events[survivors[i]]) {
      assert Survives(items, |items|, survivors[i]);
      SurvivorHasAccess(events, items, survivors[i]);
    }
    forall i, j | 0 <= i < j < |survivors|
      ensures Strip(events[survivors[i]].employee) != Strip(events[survivors[j]].employee)
    {
      OneSurvivorEach(items, survivors, i, j);
      assert items[survivors[i]] == Read(events[survivors[i]]) && items[survivors[j]] == Read(events[survivors[j]]);
    }
    forall k | 0 <= k < |events| && Access(events[k])
      ensures Represented(events, survivors, k)
    {
      AccessIsRepresented(events, items, survivors, k);
    }
  }

  /** Phase one in terms of the events. */
  method Selected(events: seq<Event>) returns (t: Tally, survivors: seq<nat>)
    ensures t.fetched == |events| == t.invalid + t.older + t.valid
    ensures t.invalid == CountNoAccess(events) && t.valid == |survivors|
    ensures ListsSurvivors(ReadAll(events), survivors) && Representative(events, survivors)
  {
    var items := ReadAll(events);
    t, survivors := LatestOnly(items);
    InvalidAreNoAccess(events);
    SurvivorsRepresent(events, items, survivors);
  }

  /** The survivors, each once. */
  ghost predicate ListsSurvivors(items: seq<Item>, survivors: seq<nat>) {
    && (forall i :: 0 <= i < |survivors| ==> survivors[i] < |items| && Survives(items, |items|, survivors[i]))
    && (forall i, j :: 0 <= i < j < |survivors| ==> survivors[i] != survivors[j])
    && (forall k: nat :: k < |items| && Survives(items, |items|, k) ==> k in survivors)
  }

  method SurvivorsInOrder(items: seq<Item>, p: Progress) returns (survivors: seq<nat>)
    requires Sound(items, |items|, p)
    ensures |survivors| == |p.order| && ListsSurvivors(items, survivors)
  {
    survivors := [];
    for i := 0 to |p.order|
      invariant |survivors| == i && forall j :: 0 <= j < i ==> survivors[j] == p.latest[p.order[j]]
    {
      assert p.order[i] in p.order;
      survivors := survivors + [p.latest[p.order[i]]];
    }
    LatestAreSurvivors(items, p.classes, p.latest);
    forall i | 0 <= i < |survivors| ensures survivors[i] < |items| && Survives(items, |items|, survivors[i]) && items[survivors[i]].who == p.order[i] {
      assert p.order[i] in p.order;
    }
    forall k: nat | k < |items| && Survives(items, |items|, k) ensures k in survivors {
      assert items[k].who in p.order;
      var i :| 0 <= i < |p.order| && p.order[i] == items[k].who;
      assert survivors[i] == k;
    }
  }

  ghost predicate KeepsDone(before: map<nat, LogStatus>, after: map<nat, LogStatus>) {
    forall s :: s in before && before[s] == Done ==> s in after && after[s] == Done
  }

  lemma DoneStays(start: map<nat, LogStatus>, before: map<nat, LogStatus>, after: map<nat, LogStatus>, serial: Option<nat>, c: Circumstance)
    requires KeepsDone(start, before)
    requires LogOf(after, serial) == Settle(LogOf(before, serial), serial, c).1
    requires OthersSame(before, after, serial)
    ensures KeepsDone(start, after)
  {
    forall s | s in start && start[s] == Done ensures s in after && after[s] == Done {
      if serial == Some(s) {
        assert LogOf(before, serial) == Some(Done);
      }
    }
  }

  lemma LatestAreSurvivors(items: seq<Item>, classes: seq<Class>, latest: map<string, nat>)
    requires Classified(items, |items|, classes, latest)
    ensures forall k :: 0 <= k < |items| && Survives(items, |items|, k) ==>
      items[k].who in latest && latest[items[k].who] == k
  {
    forall k | 0 <= k < |items| && Survives(items, |items|, k)
      ensures items[k].who in latest && latest[items[k].who] == k
    {
      var l := latest[items[k].who];
      assert items[l].who == items[k].who && items[k].who == items[l].who;
    }
  }
}
