/**
  Fee reminders (app/services/fee_reminder.py): several slots a day, lookups batched over
  all due installments instead of one per row, and a unique log row that decides which of
  several schedulers sends.
 */
module FeeReminder {
  import opened Wrappers

  // ---- Slots of a day ----------------------------------------------------------------

  const WINDOW := 3600

  function Clamp(perDay: int): (n: nat)
    ensures 1 <= n <= 6
  {
    if perDay < 1 then 1 else if perDay > 6 then 6 else perDay
  }

  /** Seconds since midnight of the slots for 1 to 6 reminders a day. */
  function DailySlots(perDay: int): (s: seq<int>)
    ensures |s| == Clamp(perDay)
  {
    match Clamp(perDay)
    case 1 => [32400]
    case 2 => [32400, 61200]
    case 3 => [32400, 46800, 64800]
    case 4 => [28800, 39600, 50400, 61200]
    case 5 => [28800, 37800, 46800, 55800, 64800]
    case _ => [28800, 36000, 43200, 50400, 57600, 64800]
  }

  function At(hour: int, minute: int): int {
    hour * 3600 + minute * 60
  }

  /** The slots by the clock; settings out of range count as the nearest one. */
  lemma SlotsByTheClock(perDay: int)
    ensures perDay <= 1 ==> DailySlots(perDay) == [At(9, 0)]
    ensures perDay == 2 ==> DailySlots(perDay) == [At(9, 0), At(17, 0)]
    ensures perDay == 3 ==> DailySlots(perDay) == [At(9, 0), At(13, 0), At(18, 0)]
    ensures perDay == 4 ==> DailySlots(perDay) == [At(8, 0), At(11, 0), At(14, 0), At(17, 0)]
    ensures perDay == 5 ==> DailySlots(perDay) == [At(8, 0), At(10, 30), At(13, 0), At(15, 30), At(18, 0)]
    ensures perDay >= 6 ==> DailySlots(perDay) == [At(8, 0), At(10, 0), At(12, 0), At(14, 0), At(16, 0), At(18, 0)]
    ensures WINDOW == At(1, 0)
  {
  }

  predicate Firing(slots: seq<int>, i: nat, now: int) {
    i < |slots| && slots[i] <= now < slots[i] + WINDOW
  }

  method ActiveSlot(slots: seq<int>, now: int) returns (index: int)
    ensures -1 <= index < |slots|
    ensures index >= 0 ==> Firing(slots, index, now) && forall i: nat :: i < index ==> !Firing(slots, i, now)
    ensures index == -1 ==> forall i: nat :: !Firing(slots, i, now)
  {
    for i := 0 to |slots|
      invariant forall j: nat :: j < i ==> !Firing(slots, j, now)
    {
      if slots[i] <= now < slots[i] + WINDOW {
        return i;
      }
    }
    index := -1;
  }

  /** No two windows of a day overlap, and none reaches into the next day. */
  lemma SlotsNeverOverlap(perDay: int, i: nat, j: nat, now: int)
    requires Firing(DailySlots(perDay), i, now) && Firing(DailySlots(perDay), j, now)
    ensures i == j && 0 <= now < 86400
  {
    var s := DailySlots(perDay);
    assert forall k :: 0 < k < |s| ==> s[k - 1] + WINDOW <= s[k];
  }

  // ---- Chunked, de-duplicated ids ------------------------------------------------------

  const CHUNK := 2000

  /** dict.fromkeys over the values that are not None */
  function Unique(values: seq<Option<nat>>): (r: seq<nat>)
    ensures forall v :: v in r <==> Some(v) in values
    ensures forall i, j :: 0 <= i < j < |r| ==> r[i] != r[j]
  {
    if values == [] then []
    else
      var last := values[|values| - 1];
      assert values == values[..|values| - 1] + [last];
      var r := Unique(values[..|values| - 1]);
      if last.None? || last.value in r then r else r + [last.value]
  }

  function Flatten(chunks: seq<seq<nat>>): seq<nat> {
    if chunks == [] then [] else Flatten(chunks[..|chunks| - 1]) + chunks[|chunks| - 1]
  }

  /** The ids in order, in lists of at most CHUNK, none of them empty. */
  method Chunks(values: seq<Option<nat>>) returns (chunks: seq<seq<nat>>)
    ensures Flatten(chunks) == Unique(values)
    ensures forall i :: 0 <= i < |chunks| ==> 0 < |chunks[i]| <= CHUNK
    ensures forall v :: Some(v) in values <==> exists i :: 0 <= i < |chunks| && v in chunks[i]
  {
    var unique := Unique(values);
    chunks := [];
    var start := 0;
    while start < |unique|
      invariant 0 <= start <= |unique| && Flatten(chunks) == unique[..start]
      invariant forall i :: 0 <= i < |chunks| ==> 0 < |chunks[i]| <= CHUNK
    {
      var stop := if start + CHUNK < |unique| then start + CHUNK else |unique|;
      FlattenMore(chunks, unique[start..stop]);
      assert unique[..start] + unique[start..stop] == unique[..stop];
      chunks := chunks + [unique[start..stop]];
      start := stop;
    }
    assert unique[..start] == unique;
    forall v ensures v in Flatten(chunks) <==> exists i :: 0 <= i < |chunks| && v in chunks[i] {
      InFlatten(chunks, v);
    }
  }

  lemma FlattenMore(chunks: seq<seq<nat>>, chunk: seq<nat>)
    ensures Flatten(chunks + [chunk]) == Flatten(chunks) + chunk
  {
    assert (chunks + [chunk])[..|chunks|] == chunks;
  }

  lemma {:induction false} InFlatten(chunks: seq<seq<nat>>, v: nat)
    ensures v in Flatten(chunks) <==> exists i :: 0 <= i < |chunks| && v in chunks[i]
    decreases |chunks|
  {
    if chunks != [] {
      InFlatten(chunks[..|chunks| - 1], v);
    }
  }

  // ---- The tables ------------------------------------------------------------------------

  datatype User = User(school: nat, active: bool)

  /** Fee records lead to students, students and users belong to schools, links join students and parents. */
  datatype Tables = Tables(
    studentOf: map<nat, nat>,
    schoolOf: map<nat, nat>,
    links: seq<(nat, nat)>,
    users: map<nat, User>)

  datatype Installment = Installment(id: nat, record: nat, amount: real, received: real)

  /** A reminder that was sent: installment, parent, day and slot. */
  type Key = (nat, nat, int, nat)

  predicate Owing(x: Installment) {
    x.amount - x.received > 0.0
  }

  /** The student's active parent accounts of the school, in link order. */
  function Parents(t: Tables, school: nat, student: nat): seq<nat> {
    ParentsAmong(t, school, student, t.links)
  }

  function ParentsAmong(t: Tables, school: nat, student: nat, links: seq<(nat, nat)>): seq<nat> {
    if links == [] then []
    else
      var (s, user) := links[|links| - 1];
      var before := ParentsAmong(t, school, student, links[..|links| - 1]);
      if s == student && user in t.users && t.users[user] == User(school, true) then before + [user] else before
  }

  /** Whom one installment concerns, looked up row by row: record, student, school, parents. */
  function Recipients(t: Tables, school: nat, x: Installment): seq<nat> {
    if !Owing(x) || x.record !in t.studentOf then []
    else
      var student := t.studentOf[x.record];
      if student in t.schoolOf && t.schoolOf[student] == school then Parents(t, school, student) else []
  }

  function Paired(id: nat, parents: seq<nat>): seq<(nat, nat)> {
    if parents == [] then [] else Paired(id, parents[..|parents| - 1]) + [(id, parents[|parents| - 1])]
  }

  /** All reminders to consider, installment by installment. */
  function Pairs(t: Tables, school: nat, xs: seq<Installment>): seq<(nat, nat)> {
    if xs == [] then []
    else
      Pairs(t, school, xs[..|xs| - 1]) + Paired(xs[|xs| - 1].id, Recipients(t, school, xs[|xs| - 1]))
  }

  /** The parent is to be reminded of the installment: something is open, and the link is in force in this school. */
  ghost predicate Concerns(t: Tables, school: nat, x: Installment, parent: nat) {
    && x.received < x.amount
    && x.record in t.studentOf && t.studentOf[x.record] in t.schoolOf && t.schoolOf[t.studentOf[x.record]] == school
    && (t.studentOf[x.record], parent) in t.links
    && parent in t.users && t.users[parent].school == school && t.users[parent].active
  }

  lemma {:induction false} ParentsAmongExactly(t: Tables, school: nat, student: nat, links: seq<(nat, nat)>, parent: nat)
    ensures parent in ParentsAmong(t, school, student, links) <==>
      (student, parent) in links && parent in t.users && t.users[parent] == User(school, true)
    decreases |links|
  {
    if links != [] {
      var n := |links| - 1;
      ParentsAmongExactly(t, school, student, links[..n], parent);
      assert links == links[..n] + [links[n]];
      assert (student, parent) in links <==> (student, parent) in links[..n] || links[n] == (student, parent);
    }
  }

  lemma {:induction false} PairedExactly(id: nat, parents: seq<nat>, p: (nat, nat))
    ensures p in Paired(id, parents) <==> p.0 == id && p.1 in parents
    decreases |parents|
  {
    if parents != [] {
      var n := |parents| - 1;
      PairedExactly(id, parents[..n], p);
      assert parents == parents[..n] + [parents[n]];
    }
  }

  /** The reminders to consider are the installments with the parents they concern. */
  lemma {:induction false} PairsExactly(t: Tables, school: nat, xs: seq<Installment>, p: (nat, nat))
    ensures p in Pairs(t, school, xs) <==> exists i :: 0 <= i < |xs| && xs[i].id == p.0 && Concerns(t, school, xs[i], p.1)
    decreases |xs|
  {
    if xs != [] {
      var n := |xs| - 1;
      PairsExactly(t, school, xs[..n], p);
      PairedExactly(xs[n].id, Recipients(t, school, xs[n]), p);
      if xs[n].record in t.studentOf {
        ParentsAmongExactly(t, school, t.studentOf[xs[n].record], t.links, p.1);
      }
      assert forall i :: 0 <= i < n ==> xs[..n][i] == xs[i];
    }
  }

  // ---- Sending -----------------------------------------------------------------------------

  /** The shared log with its unique key, and the notifications committed with log rows. */
  datatype Store = Store(log: set<Key>, sent: seq<Key>)

  /** What other schedulers commit before the i-th reminder, and whether its own commit fails otherwise. */
  datatype Around = Around(others: nat -> seq<Key>, fails: nat -> bool)

  /** One commit of a notification with its log row; the unique key rejects a second one. */
  function Commit(s: Store, key: Key): Store {
    if key in s.log then s else Store(s.log + {key}, s.sent + [key])
  }

  function CommitAll(s: Store, keys: seq<Key>): Store {
    if keys == [] then s else Commit(CommitAll(s, keys[..|keys| - 1]), keys[|keys| - 1])
  }

  /** The i-th reminder, decided by the log alone. */
  function Remind(s: Store, a: Around, i: nat, key: Key): Store {
    var t := CommitAll(s, a.others(i));
    if a.fails(i) then t else Commit(t, key)
  }

  /** Reminding pair by pair. */
  function RemindAll(s: Store, a: Around, day: int, slot: nat, pairs: seq<(nat, nat)>): Store {
    if pairs == [] then s
    else
      var n := |pairs| - 1;
      Remind(RemindAll(s, a, day, slot, pairs[..n]), a, n, (pairs[n].0, pairs[n].1, day, slot))
  }

  ghost predicate SentOnce(s: Store) {
    && (forall i, j :: 0 <= i < j < |s.sent| ==> s.sent[i] != s.sent[j])
    && (forall i :: 0 <= i < |s.sent| ==> s.sent[i] in s.log)
  }

  /** From one store to a later one nothing was taken back, and what was logged was sent. */
  ghost predicate Later(s: Store, t: Store) {
    && s.log <= t.log && (forall k :: k in s.sent ==> k in t.sent)
    && forall k :: k in t.log && k !in s.log ==> k in t.sent
  }

  lemma {:induction false} CommitsKeepSentOnce(s: Store, keys: seq<Key>)
    requires SentOnce(s)
    ensures SentOnce(CommitAll(s, keys)) && Later(s, CommitAll(s, keys))
    decreases |keys|
  {
    if keys != [] {
      CommitsKeepSentOnce(s, keys[..|keys| - 1]);
    }
  }

  /** However many schedulers commit in whatever order, a reminder key is notified at most once. */
  lemma {:induction false} RemindersAreUnique(s: Store, a: Around, day: int, slot: nat, pairs: seq<(nat, nat)>)
    requires SentOnce(s)
    ensures SentOnce(RemindAll(s, a, day, slot, pairs)) && Later(s, RemindAll(s, a, day, slot, pairs))
    decreases |pairs|
  {
    if pairs != [] {
      var n := |pairs| - 1;
      RemindersAreUnique(s, a, day, slot, pairs[..n]);
      CommitsKeepSentOnce(RemindAll(s, a, day, slot, pairs[..n]), a.others(n));
    }
  }

  /** Every pair is reminded, by this scheduler or another one, unless its commit fails. */
  lemma {:induction false} EveryPairIsReminded(s: Store, a: Around, day: int, slot: nat, pairs: seq<(nat, nat)>, i: nat)
    requires SentOnce(s) && i < |pairs| && !a.fails(i)
    ensures (pairs[i].0, pairs[i].1, day, slot) in RemindAll(s, a, day, slot, pairs).log
    decreases |pairs|
  {
    var n := |pairs| - 1;
    RemindersAreUnique(s, a, day, slot, pairs[..n]);
    CommitsKeepSentOnce(RemindAll(s, a, day, slot, pairs[..n]), a.others(n));
    if i < n {
      EveryPairIsReminded(s, a, day, slot, pairs[..n], i);
    }
  }

  lemma {:induction false} OnlyPairsAreAdded(s: Store, a: Around, day: int, slot: nat, pairs: seq<(nat, nat)>, k: Key)
    requires forall i :: a.others(i) == []
    requires k in RemindAll(s, a, day, slot, pairs).log && k !in s.log
    ensures k.2 == day && k.3 == slot && (k.0, k.1) in pairs
    decreases |pairs|
  {
    if pairs != [] {
      var n := |pairs| - 1;
      assert CommitAll(RemindAll(s, a, day, slot, pairs[..n]), a.others(n)) == RemindAll(s, a, day, slot, pairs[..n]);
      if k in RemindAll(s, a, day, slot, pairs[..n]).log {
        OnlyPairsAreAdded(s, a, day, slot, pairs[..n], k);
      } else {
        assert (k.0, k.1) == pairs[n];
      }
    }
  }

  /**
    A reminding tick logs everybody concerned, if no commit fails, and nobody else, if no
    other scheduler runs.
   */
  lemma RemindedExactly(s: Store, a: Around, t: Tables, school: nat, xs: seq<Installment>, day: int, slot: nat, id: nat, parent: nat)
    requires SentOnce(s)
    ensures var concerned := exists i :: 0 <= i < |xs| && xs[i].id == id && Concerns(t, school, xs[i], parent);
      var logged := (id, parent, day, slot) in RemindAll(s, a, day, slot, Pairs(t, school, xs)).log;
      && ((forall i :: !a.fails(i)) && concerned ==> logged)
      && ((forall i :: a.others(i) == []) && logged ==> concerned || (id, parent, day, slot) in s.log)
  {
    var pairs := Pairs(t, school, xs);
    PairsExactly(t, school, xs, (id, parent));
    if (forall i :: !a.fails(i)) && (id, parent) in pairs {
      var i :| 0 <= i < |pairs| && pairs[i] == (id, parent);
      EveryPairIsReminded(s, a, day, slot, pairs, i);
    }
    var key := (id, parent, day, slot);
    if (forall i :: a.others(i) == []) && key in RemindAll(s, a, day, slot, pairs).log && key !in s.log {
      OnlyPairsAreAdded(s, a, day, slot, pairs, key);
    }
  }

  /** Slots below a bound give at most that many reminders for one installment, parent and day. */
  lemma {:induction false} AtMostOnePerSlot(keys: set<Key>, id: nat, parent: nat, day: int, n: nat)
    requires forall k :: k in keys ==> k.0 == id && k.1 == parent && k.2 == day && k.3 < n
    ensures |keys| <= n
    decreases n
  {
    if n == 0 {
      assert keys == {};
    } else {
      var last := (id, parent, day, n - 1);
      AtMostOnePerSlot(keys - {last}, id, parent, day, n - 1);
    }
  }

  function KeysFor(log: set<Key>, id: nat, parent: nat, day: int): set<Key> {
    set k | k in log && k.0 == id && k.1 == parent && k.2 == day
  }

  /** The settings that stay fixed: how many reminders a day the school of each installment wants. */
  type Settings = nat -> int

  /** The reminder's slot is one that fires at some time of day under its school's setting. */
  ghost predicate Fired(perDay: Settings, k: Key) {
    exists now :: Firing(DailySlots(perDay(k.0)), k.3, now)
  }

  ghost predicate InSlots(perDay: Settings, log: set<Key>) {
    forall k :: k in log ==> Fired(perDay, k)
  }

  /** The other schedulers work under the same settings: they only commit in slots that fire. */
  ghost predicate SameSettings(perDay: Settings, a: Around) {
    forall i, k :: k in a.others(i) ==> Fired(perDay, k)
  }

  lemma {:induction false} CommitsKeepSlots(perDay: Settings, s: Store, keys: seq<Key>)
    requires InSlots(perDay, s.log) && forall k :: k in keys ==> Fired(perDay, k)
    ensures InSlots(perDay, CommitAll(s, keys).log)
    decreases |keys|
  {
    if keys != [] {
      CommitsKeepSlots(perDay, s, keys[..|keys| - 1]);
      assert keys[|keys| - 1] in keys;
    }
  }

  /** The slot fires for every installment to be reminded. */
  ghost predicate InTime(perDay: Settings, day: int, slot: nat, pairs: seq<(nat, nat)>) {
    forall p :: p in pairs ==> Fired(perDay, (p.0, p.1, day, slot))
  }

  lemma {:induction false} RemindersKeepSlots(perDay: Settings, s: Store, a: Around, day: int, slot: nat, pairs: seq<(nat, nat)>)
    requires InSlots(perDay, s.log) && SameSettings(perDay, a) && InTime(perDay, day, slot, pairs)
    ensures InSlots(perDay, RemindAll(s, a, day, slot, pairs).log)
    decreases |pairs|
  {
    if pairs != [] {
      var n := |pairs| - 1;
      assert pairs[n] in pairs;
      RemindersKeepSlots(perDay, s, a, day, slot, pairs[..n]);
      CommitsKeepSlots(perDay, RemindAll(s, a, day, slot, pairs[..n]), a.others(n));
    }
  }

  /** How many notifications of an installment a parent was sent on a day. */
  function SentTo(sent: seq<Key>, id: nat, parent: nat, day: int): nat {
    if sent == [] then 0
    else
      var k := sent[|sent| - 1];
      SentTo(sent[..|sent| - 1], id, parent, day) + if k.0 == id && k.1 == parent && k.2 == day then 1 else 0
  }

  /** Notifications that are never repeated are at most as many as their log rows. */
  lemma {:induction false} SentAreLogged(sent: seq<Key>, log: set<Key>, id: nat, parent: nat, day: int)
    requires forall i, j :: 0 <= i < j < |sent| ==> sent[i] != sent[j]
    requires forall i :: 0 <= i < |sent| ==> sent[i] in log
    ensures SentTo(sent, id, parent, day) <= |KeysFor(log, id, parent, day)|
    decreases |sent|
  {
    if sent != [] {
      var k := sent[|sent| - 1];
      SentAreLogged(sent[..|sent| - 1], log - {k}, id, parent, day);
      var rest := KeysFor(log - {k}, id, parent, day);
      assert KeysFor(log, id, parent, day) ==
        if k.0 == id && k.1 == parent && k.2 == day then rest + {k} else rest;
    }
  }

  lemma LogBoundsSent(perDay: Settings, s: Store, id: nat, parent: nat, day: int)
    requires SentOnce(s) && InSlots(perDay, s.log)
    ensures SentTo(s.sent, id, parent, day) <= Clamp(perDay(id))
  {
    var keys := KeysFor(s.log, id, parent, day);
    forall k | k in keys ensures k.3 < Clamp(perDay(id)) {
      assert Fired(perDay, k);
    }
    AtMostOnePerSlot(keys, id, parent, day, Clamp(perDay(id)));
    SentAreLogged(s.sent, s.log, id, parent, day);
  }

  /** One scheduler's pass over its reminders, with what the others commit meanwhile. */
  datatype Tick = Tick(around: Around, day: int, slot: nat, pairs: seq<(nat, nat)>)

  function Ticks(ticks: seq<Tick>): Store {
    if ticks == [] then Store({}, [])
    else
      var k := ticks[|ticks| - 1];
      RemindAll(Ticks(ticks[..|ticks| - 1]), k.around, k.day, k.slot, k.pairs)
  }

  /** Under fixed settings every tick reminds in a slot that fires, and so do the other schedulers. */
  ghost predicate UnderSettings(perDay: Settings, k: Tick) {
    SameSettings(perDay, k.around) && InTime(perDay, k.day, k.slot, k.pairs)
  }

  lemma {:induction false} TicksKeepSlots(perDay: Settings, ticks: seq<Tick>)
    requires forall i :: 0 <= i < |ticks| ==> UnderSettings(perDay, ticks[i])
    ensures SentOnce(Ticks(ticks)) && InSlots(perDay, Ticks(ticks).log)
    decreases |ticks|
  {
    if ticks != [] {
      var before, k := ticks[..|ticks| - 1], ticks[|ticks| - 1];
      TicksKeepSlots(perDay, before);
      RemindersAreUnique(Ticks(before), k.around, k.day, k.slot, k.pairs);
      assert UnderSettings(perDay, k);
      RemindersKeepSlots(perDay, Ticks(before), k.around, k.day, k.slot, k.pairs);
    }
  }

  /** After any ticks of any schedulers, a parent was sent at most perDay reminders of an installment on a day. */
  lemma AtMostPerDay(perDay: Settings, ticks: seq<Tick>, id: nat, parent: nat, day: int)
    requires forall i :: 0 <= i < |ticks| ==> UnderSettings(perDay, ticks[i])
    ensures SentTo(Ticks(ticks).sent, id, parent, day) <= Clamp(perDay(id))
  {
    TicksKeepSlots(perDay, ticks);
    LogBoundsSent(perDay, Ticks(ticks), id, parent, day);
  }

  // ---- The batched form -----------------------------------------------------------------------

  function Due(xs: seq<Installment>): (r: seq<Installment>)
    ensures |r| <= |xs|
  {
    if xs == [] then []
    else
      var r := Due(xs[..|xs| - 1]);
      if Owing(xs[|xs| - 1]) then r + [xs[|xs| - 1]] else r
  }

  lemma {:induction false} OnlyDueCount(t: Tables, school: nat, xs: seq<Installment>)
    ensures Pairs(t, school, Due(xs)) == Pairs(t, school, xs)
    ensures forall i :: 0 <= i < |Due(xs)| ==> Owing(Due(xs)[i])
    decreases |xs|
  {
    if xs != [] {
      var before := Due(xs[..|xs| - 1]);
      OnlyDueCount(t, school, xs[..|xs| - 1]);
      if Owing(xs[|xs| - 1]) {
        assert Due(xs)[..|Due(xs)| - 1] == before;
      }
    }
  }

  /** A table restricted to the given ids, chunk by chunk. */
  method Lookup<V>(table: map<nat, V>, values: seq<Option<nat>>) returns (found: map<nat, V>)
    ensures forall k :: k in found <==> k in table && Some(k) in values
    ensures forall k :: k in found ==> found[k] == table[k]
  {
    var chunks := Chunks(values);
    found := map[];
    for i := 0 to |chunks|
      invariant forall k :: k in found <==> k in table && exists j :: 0 <= j < i && k in chunks[j]
      invariant forall k :: k in found ==> found[k] == table[k]
    {
      found := found + map k | k in chunks[i] && k in table :: table[k];
    }
  }

  function Got(found: map<nat, seq<nat>>, student: nat): seq<nat> {
    if student in found then found[student] else []
  }

  /** One chunk of the parents' lookup. */
  method ParentsOfChunk(t: Tables, school: nat, chunk: seq<nat>, before: map<nat, seq<nat>>) returns (found: map<nat, seq<nat>>)
    requires forall s :: s in chunk ==> s !in before
    ensures forall s :: Got(found, s) == if s in chunk then Parents(t, school, s) else Got(before, s)
    ensures forall s :: s in found ==> s in before || s in chunk
  {
    found := before;
    for i := 0 to |t.links|
      invariant forall s :: Got(found, s) == if s in chunk then ParentsAmong(t, school, s, t.links[..i]) else Got(before, s)
      invariant forall s :: s in found ==> s in before || s in chunk
    {
      assert t.links[..i + 1][..i] == t.links[..i];
      var (s, user) := t.links[i];
      if s in chunk && user in t.users && t.users[user] == User(school, true) {
        found := found[s := Got(found, s) + [user]];
      }
    }
    assert t.links[..|t.links|] == t.links;
  }

  lemma ChunksAreDisjoint(chunks: seq<seq<nat>>, i: nat, v: nat)
    requires i < |chunks| && v in chunks[i]
    requires forall m, n :: 0 <= m < n < |Flatten(chunks)| ==> Flatten(chunks)[m] != Flatten(chunks)[n]
    ensures v !in Flatten(chunks[..i])
    decreases |chunks|
  {
    var n := |chunks| - 1;
    var all, front := Flatten(chunks), Flatten(chunks[..n]);
    if i == n {
      forall a, b | 0 <= a < |front| && 0 <= b < |chunks[n]| ensures front[a] != chunks[n][b] {
        assert all[a] == front[a] && all[|front| + b] == chunks[n][b];
      }
    } else {
      assert forall m :: 0 <= m < |front| ==> all[m] == front[m];
      ChunksAreDisjoint(chunks[..n], i, v);
      assert chunks[..n][..i] == chunks[..i];
    }
  }

  method ParentsByStudent(t: Tables, school: nat, values: seq<Option<nat>>) returns (found: map<nat, seq<nat>>)
    ensures forall s: nat :: Got(found, s) == if Some(s) in values then Parents(t, school, s) else []
  {
    var chunks := Chunks(values);
    found := map[];
    for i := 0 to |chunks|
      invariant forall s :: Got(found, s) == if s in Flatten(chunks[..i]) then Parents(t, school, s) else []
      invariant forall s :: s in found ==> s in Flatten(chunks[..i])
    {
      forall s | s in chunks[i] ensures s !in Flatten(chunks[..i]) {
        ChunksAreDisjoint(chunks, i, s);
      }
      FlattenMore(chunks[..i], chunks[i]);
      assert chunks[..i] + [chunks[i]] == chunks[..i + 1];
      found := ParentsOfChunk(t, school, chunks[i], found);
    }
    assert chunks[..|chunks|] == chunks;
  }

  /** The student of each due installment, where the record is known. */
  function StudentIds(due: seq<Installment>, studentIds: map<nat, nat>): (r: seq<Option<nat>>)
    ensures |r| == |due|
    ensures forall i :: 0 <= i < |due| ==>
      r[i] == if due[i].record in studentIds then Some(studentIds[due[i].record]) else None
  {
    if due == [] then []
    else
      var last := due[|due| - 1];
      StudentIds(due[..|due| - 1], studentIds)
      + [if last.record in studentIds then Some(studentIds[last.record]) else None]
  }

  function Known(ids: seq<Option<nat>>, students: map<nat, nat>): (r: seq<Option<nat>>)
    ensures |r| == |ids|
    ensures forall i :: 0 <= i < |ids| ==> r[i] == if ids[i].Some? && ids[i].value in students then ids[i] else None
  {
    if ids == [] then []
    else
      var last := ids[|ids| - 1];
      Known(ids[..|ids| - 1], students) + [if last.Some? && last.value in students then last else None]
  }

  function Records(due: seq<Installment>): (r: seq<Option<nat>>)
    ensures |r| == |due| && forall i :: 0 <= i < |due| ==> r[i] == Some(due[i].record)
  {
    if due == [] then [] else Records(due[..|due| - 1]) + [Some(due[|due| - 1].record)]
  }

  /** What the batched dictionaries say about one due installment. */
  function Answer(x: Installment, studentIds: map<nat, nat>, students: map<nat, nat>, parents: map<nat, seq<nat>>): seq<nat> {
    if x.record in studentIds && studentIds[x.record] in students then Got(parents, studentIds[x.record]) else []
  }

  /** The dictionaries know the installment's student, whether they are the school's, and their parents. */
  ghost predicate Fits(t: Tables, school: nat, x: Installment, studentIds: map<nat, nat>, students: map<nat, nat>,
                       parents: map<nat, seq<nat>>) {
    && (x.record in studentIds <==> x.record in t.studentOf)
    && (x.record in studentIds ==>
          var s := studentIds[x.record];
          && s == t.studentOf[x.record] && (s in students <==> s in t.schoolOf && t.schoolOf[s] == school)
          && (s in students ==> Got(parents, s) == Parents(t, school, s)))
  }

  function OwnStudents(t: Tables, school: nat): map<nat, nat> {
    map s | s in t.schoolOf && t.schoolOf[s] == school :: school
  }

  method Dictionaries(t: Tables, school: nat, due: seq<Installment>)
    returns (studentIds: map<nat, nat>, students: map<nat, nat>, parents: map<nat, seq<nat>>)
    ensures forall i :: 0 <= i < |due| ==> Fits(t, school, due[i], studentIds, students, parents)
  {
    var records := Records(due);
    studentIds := Lookup(t.studentOf, records);
    var ids := StudentIds(due, studentIds);
    var own := OwnStudents(t, school);
    students := Lookup(own, ids);
    var known := Known(ids, students);
    parents := ParentsByStudent(t, school, known);
    forall i | 0 <= i < |due| ensures Fits(t, school, due[i], studentIds, students, parents) {
      assert records[i] == Some(due[i].record) && records[i] in records;
      if due[i].record in studentIds {
        var s := studentIds[due[i].record];
        assert ids[i] == Some(s) && ids[i] in ids;
        assert s in students <==> s in own;
        if s in students {
          assert known[i] == Some(s) && known[i] in known;
        }
      }
    }
  }

  /** The batched lookups answer for every due installment what looking it up alone would. */
  method RecipientsOf(t: Tables, school: nat, due: seq<Installment>) returns (recipients: seq<seq<nat>>)
    requires forall i :: 0 <= i < |due| ==> Owing(due[i])
    ensures |recipients| == |due|
    ensures forall i :: 0 <= i < |due| ==> recipients[i] == Recipients(t, school, due[i])
  {
    var studentIds, students, parents := Dictionaries(t, school, due);
    recipients := [];
    for i := 0 to |due|
      invariant |recipients| == i && forall j :: 0 <= j < i ==> recipients[j] == Recipients(t, school, due[j])
    {
      assert Fits(t, school, due[i], studentIds, students, parents);
      recipients := recipients + [Answer(due[i], studentIds, students, parents)];
    }
  }

  lemma PairsOneMore(t: Tables, school: nat, xs: seq<Installment>, i: nat)
    requires i < |xs|
    ensures Pairs(t, school, xs[..i + 1]) == Pairs(t, school, xs[..i]) + Paired(xs[i].id, Recipients(t, school, xs[i]))
  {
    assert xs[..i + 1][..i] == xs[..i];
  }

  lemma OneMorePair(s: Store, a: Around, day: int, slot: nat, pairs: seq<(nat, nat)>, p: (nat, nat))
    ensures RemindAll(s, a, day, slot, pairs + [p])
         == Remind(RemindAll(s, a, day, slot, pairs), a, |pairs|, (p.0, p.1, day, slot))
  {
    assert (pairs + [p])[..|pairs|] == pairs;
  }

  /** The installments are of one school, whose setting this is. */
  predicate Of(settings: Settings, perDay: int, xs: seq<Installment>) {
    forall i :: 0 <= i < |xs| ==> settings(xs[i].id) == perDay
  }

  lemma {:induction false} PairsAreOf(settings: Settings, perDay: int, t: Tables, school: nat, xs: seq<Installment>)
    requires Of(settings, perDay, xs)
    ensures forall p :: p in Pairs(t, school, xs) ==> settings(p.0) == perDay
    decreases |xs|
  {
    if xs != [] {
      var x := xs[|xs| - 1];
      PairsAreOf(settings, perDay, t, school, xs[..|xs| - 1]);
      PairedIds(x.id, Recipients(t, school, x));
    }
  }

  lemma {:induction false} PairedIds(id: nat, parents: seq<nat>)
    ensures forall p :: p in Paired(id, parents) ==> p.0 == id
    decreases |parents|
  {
    if parents != [] {
      PairedIds(id, parents[..|parents| - 1]);
    }
  }

  /** A tick in the slot that is firing now is one under the settings. */
  lemma TickIsInTime(settings: Settings, perDay: int, t: Tables, school: nat, xs: seq<Installment>, day: int, slot: nat, now: int)
    requires Of(settings, perDay, xs) && Firing(DailySlots(perDay), slot, now)
    ensures InTime(settings, day, slot, Pairs(t, school, xs))
  {
    PairsAreOf(settings, perDay, t, school, xs);
    forall p | p in Pairs(t, school, xs) ensures Fired(settings, (p.0, p.1, day, slot)) {
      assert Firing(DailySlots(settings(p.0)), slot, now);
    }
  }

  lemma ConcernedAreReminded(before: Store, after: Store, a: Around, t: Tables, school: nat, xs: seq<Installment>, day: int, slot: nat)
    requires SentOnce(before) && after == RemindAll(before, a, day, slot, Pairs(t, school, xs))
    ensures (forall k :: !a.fails(k)) ==>
      forall x, parent: nat :: x in xs && Concerns(t, school, x, parent) ==> (x.id, parent, day, slot) in after.log
    ensures (forall k :: a.others(k) == []) ==>
      forall key :: key in after.log && key !in before.log ==>
        key.2 == day && key.3 == slot && exists x :: x in xs && x.id == key.0 && Concerns(t, school, x, key.1)
  {
    forall x, parent: nat | (forall k :: !a.fails(k)) && x in xs && Concerns(t, school, x, parent)
      ensures (x.id, parent, day, slot) in after.log
    {
      var i :| 0 <= i < |xs| && xs[i] == x;
      RemindedExactly(before, a, t, school, xs, day, slot, x.id, parent);
    }
    forall key | (forall k :: a.others(k) == []) && key in after.log && key !in before.log
      ensures key.2 == day && key.3 == slot && exists x :: x in xs && x.id == key.0 && Concerns(t, school, x, key.1)
    {
      OnlyPairsAreAdded(before, a, day, slot, Pairs(t, school, xs), key);
      PairsExactly(t, school, xs, (key.0, key.1));
      var i :| 0 <= i < |xs| && xs[i].id == key.0 && Concerns(t, school, xs[i], key.1);
      assert xs[i] in xs;
    }
  }

  /** The optimistic pre-check's one query. */
  function AlreadySent(log: set<Key>, day: int, slot: nat): (r: set<(nat, nat)>)
    ensures forall p :: p in r <==> (p.0, p.1, day, slot) in log
  {
    set k | k in log && k.2 == day && k.3 == slot :: (k.0, k.1)
  }

  class Scheduler {
    var store: Store

    /** The parents of one installment; `already` only saves commits that the unique key would reject. */
    method Send(id: nat, parents: seq<nat>, day: int, slot: nat, a: Around, already: set<(nat, nat)>,
                ghost start: Store, ghost done: seq<(nat, nat)>, n: nat)
      requires SentOnce(start) && store == RemindAll(start, a, day, slot, done) && n == |done|
      requires forall p :: p in already ==> (p.0, p.1, day, slot) in start.log
      modifies this
      ensures store == RemindAll(start, a, day, slot, done + Paired(id, parents))
    {
      ghost var all := done;
      for j := 0 to |parents|
        invariant all == done + Paired(id, parents[..j]) && |all| == n + j
        invariant store == RemindAll(start, a, day, slot, all)
      {
        var key := (id, parents[j], day, slot);
        assert parents[..j + 1][..j] == parents[..j];
        OneMorePair(start, a, day, slot, all, (id, parents[j]));
        RemindersAreUnique(start, a, day, slot, all);
        CommitsKeepSentOnce(store, a.others(n + j));
        store := CommitAll(store, a.others(n + j));
        if (id, parents[j]) !in already && !a.fails(n + j) {
          store := Commit(store, key);
        }
        all := all + [(id, parents[j])];
      }
      assert parents[..|parents|] == parents;
    }

    /** One school's tick sends exactly what looking everything up row by row would send. */
    method CheckSchool(t: Tables, school: nat, enabled: bool, perDay: int, xs: seq<Installment>, day: int, now: int,
                       a: Around, ghost settings: Settings)
      requires SentOnce(store)
      modifies this
      ensures SentOnce(store) && Later(old(store), store)
      ensures !enabled || (forall i: nat :: !Firing(DailySlots(perDay), i, now)) ==> store == old(store)
      ensures forall i: nat :: enabled && Firing(DailySlots(perDay), i, now) ==>
        store == RemindAll(old(store), a, day, i, Pairs(t, school, xs))
      ensures InSlots(settings, old(store.log)) && SameSettings(settings, a) && Of(settings, perDay, xs) ==>
        && InSlots(settings, store.log)
        && forall id, parent, on :: SentTo(store.sent, id, parent, on) <= Clamp(settings(id))
      ensures enabled && (forall k :: !a.fails(k)) ==> forall i: nat, x, parent: nat ::
        Firing(DailySlots(perDay), i, now) && x in xs && Concerns(t, school, x, parent) ==> (x.id, parent, day, i) in store.log
      ensures (forall k :: a.others(k) == []) ==> forall key :: key in store.log && key !in old(store.log) ==>
        && enabled && Firing(DailySlots(perDay), key.3, now) && key.2 == day
        && exists x :: x in xs && x.id == key.0 && Concerns(t, school, x, key.1)
    {
      if InSlots(settings, store.log) {
        forall id, parent, on ensures SentTo(store.sent, id, parent, on) <= Clamp(settings(id)) {
          LogBoundsSent(settings, store, id, parent, on);
        }
      }
      if !enabled {
        return;
      }
      var slots := DailySlots(perDay);
      var index := ActiveSlot(slots, now);
      if index < 0 {
        return;
      }
      forall i: nat | Firing(slots, i, now) ensures i == index {
        SlotsNeverOverlap(perDay, i, index, now);
      }
      SendAll(t, school, xs, day, index, a);
      ConcernedAreReminded(old(store), store, a, t, school, xs, day, index);
      if InSlots(settings, old(store.log)) && SameSettings(settings, a) && Of(settings, perDay, xs) {
        TickIsInTime(settings, perDay, t, school, xs, day, index, now);
        RemindersKeepSlots(settings, old(store), a, day, index, Pairs(t, school, xs));
        forall id, parent, on ensures SentTo(store.sent, id, parent, on) <= Clamp(settings(id)) {
          LogBoundsSent(settings, store, id, parent, on);
        }
      }
    }

    /** The slot's lookups and send loop. */
    method SendAll(t: Tables, school: nat, xs: seq<Installment>, day: int, index: nat, a: Around)
      requires SentOnce(store)
      modifies this
      ensures SentOnce(store) && Later(old(store), store)
      ensures store == RemindAll(old(store), a, day, index, Pairs(t, school, xs))
    {
      var due := Due(xs);
      OnlyDueCount(t, school, xs);
      var recipients := RecipientsOf(t, school, due);
      var already := AlreadySent(store.log, day, index);
      var n := 0;
      ghost var start, done: seq<(nat, nat)> := store, [];
      for i := 0 to |due|
        invariant done == Pairs(t, school, due[..i]) && n == |done| && store == RemindAll(start, a, day, index, done)
      {
        PairsOneMore(t, school, due, i);
        PairedLength(due[i].id, recipients[i]);
        Send(due[i].id, recipients[i], day, index, a, already, start, done, n);
        n, done := n + |recipients[i]|, done + Paired(due[i].id, recipients[i]);
      }
      assert due[..|due|] == due;
      RemindersAreUnique(start, a, day, index, Pairs(t, school, due));
    }
  }

  lemma {:induction false} PairedLength(id: nat, parents: seq<nat>)
    ensures |Paired(id, parents)| == |parents|
    decreases |parents|
  {
    if parents != [] {
      PairedLength(id, parents[..|parents| - 1]);
    }
  }
}
