/**
  The lesson calendar of an institute (app/services/institute_attendance.py): meetings are
  computed from weekly rules, never stored, and merged with the sessions that were opened.
 */
module InstituteCalendar {
  import opened Wrappers

  // ---- Tables, keyed by their unique constraints ------------------------------------

  /** A lesson: group, date as a day number, start time. */
  type Key = (nat, int, nat)

  /** Group dates bound its lessons; names order them for display. */
  datatype Group = Group(start: Option<int>, end: Option<int>, name: nat)

  datatype Rule = Rule(active: bool, end: nat)

  datatype Session = Session(end: nat, recorded: bool)

  /** One school's weekly rules by group, weekday and start, and its sessions. */
  datatype Tables = Tables(rules: map<(nat, int, nat), Rule>, sessions: map<Key, Session>)

  datatype Occurrence = Occurrence(key: Key, end: nat, session: Option<Session>)

  datatype Answer = Found(list: seq<Occurrence>) | RangeTooLong

  const LONGEST_RANGE := 400

  /** date.weekday() of a day number: Monday is 0. */
  function Weekday(day: int): int {
    (day + 6) % 7
  }

  /** The application's weekdays start with Sunday. */
  function AppWeekday(day: int): int {
    (Weekday(day) + 1) % 7
  }

  function Covers(g: Group, day: int): bool {
    (g.start.Some? ==> g.start.value <= day) && (g.end.Some? ==> day <= g.end.value)
  }

  function Stored(t: Tables, k: Key): Option<Session> {
    if k in t.sessions then Some(t.sessions[k]) else None
  }

  /** An active rule of the group plans this lesson. */
  predicate Planned(t: Tables, groups: map<nat, Group>, k: Key) {
    var rule := (k.0, AppWeekday(k.1), k.2);
    k.0 in groups && Covers(groups[k.0], k.1) && rule in t.rules && t.rules[rule].active
  }

  /** A rule plans a lesson on its weekday, counted from Sunday, within the group's dates, both ends included. */
  lemma PlannedExactly(t: Tables, groups: map<nat, Group>, k: Key)
    ensures Planned(t, groups, k) <==>
      && k.0 in groups
      && !(groups[k.0].start.Some? && k.1 < groups[k.0].start.value)
      && !(groups[k.0].end.Some? && groups[k.0].end.value < k.1)
      && exists rule :: rule in t.rules && t.rules[rule].active && rule.0 == k.0 && rule.2 == k.2 && rule.1 == k.1 % 7
  {
    WeekdayOf(k.1);
    var rule := (k.0, AppWeekday(k.1), k.2);
    assert rule.1 == k.1 % 7;
  }

  /** The lesson at a key, planned or only stored, as it must be listed. */
  function Lesson(t: Tables, groups: map<nat, Group>, k: Key): Option<Occurrence> {
    if Planned(t, groups, k) then Some(Occurrence(k, t.rules[(k.0, AppWeekday(k.1), k.2)].end, Stored(t, k)))
    else if k.0 in groups && k in t.sessions then Some(Occurrence(k, t.sessions[k].end, Stored(t, k)))
    else None
  }

  predicate Listed(out: seq<Occurrence>, o: Occurrence) {
    o in out
  }

  /** out lists the lessons at the given keys, each once. */
  ghost predicate Exactly(t: Tables, groups: map<nat, Group>, out: seq<Occurrence>, keys: set<Key>) {
    && (forall i, j :: 0 <= i < j < |out| ==> out[i].key != out[j].key)
    && (forall i :: 0 <= i < |out| ==> out[i].key in keys && Lesson(t, groups, out[i].key) == Some(out[i]))
    && (forall k :: k in keys ==> Lesson(t, groups, k).Some? && Listed(out, Lesson(t, groups, k).value))
  }

  lemma OneMore(t: Tables, groups: map<nat, Group>, out: seq<Occurrence>, keys: set<Key>, o: Occurrence)
    requires Exactly(t, groups, out, keys) && o.key !in keys && Lesson(t, groups, o.key) == Some(o)
    ensures Exactly(t, groups, out + [o], keys + {o.key})
  {
    forall k | k in keys + {o.key} ensures Listed(out + [o], Lesson(t, groups, k).value) {
      if k in keys {
        assert Listed(out, Lesson(t, groups, k).value);
      }
    }
  }

  // ---- Sorting by date, start and group name ---------------------------------------

  function NameOf(groups: map<nat, Group>, o: Occurrence): nat {
    if o.key.0 in groups then groups[o.key.0].name else 0
  }

  predicate Before(groups: map<nat, Group>, a: Occurrence, b: Occurrence) {
    || a.key.1 < b.key.1
    || (a.key.1 == b.key.1
        && (a.key.2 < b.key.2 || (a.key.2 == b.key.2 && NameOf(groups, a) <= NameOf(groups, b))))
  }

  ghost predicate Sorted(groups: map<nat, Group>, s: seq<Occurrence>) {
    forall i, j :: 0 <= i < j < |s| ==> Before(groups, s[i], s[j])
  }

  function Insert(groups: map<nat, Group>, o: Occurrence, s: seq<Occurrence>): (r: seq<Occurrence>)
    ensures |r| == |s| + 1 && forall x :: x in r <==> x == o || x in s
  {
    if s == [] || Before(groups, o, s[0]) then [o] + s
    else
      assert s == [s[0]] + s[1..];
      [s[0]] + Insert(groups, o, s[1..])
  }

  function Sort(groups: map<nat, Group>, s: seq<Occurrence>): (r: seq<Occurrence>)
    ensures |r| == |s| && forall x :: x in r <==> x in s
  {
    if s == [] then []
    else
      assert s == s[..|s| - 1] + [s[|s| - 1]];
      Insert(groups, s[|s| - 1], Sort(groups, s[..|s| - 1]))
  }

  ghost predicate DistinctKeys(s: seq<Occurrence>) {
    forall i, j :: 0 <= i < j < |s| ==> s[i].key != s[j].key
  }

  lemma FirstThenSorted(groups: map<nat, Group>, o: Occurrence, rest: seq<Occurrence>)
    requires Sorted(groups, rest) && forall x :: x in rest ==> Before(groups, o, x)
    ensures Sorted(groups, [o] + rest)
    ensures DistinctKeys(rest) && (forall x :: x in rest ==> x.key != o.key) ==> DistinctKeys([o] + rest)
  {
    var s := [o] + rest;
    forall i | 0 < i < |s| ensures s[i] == rest[i - 1] && s[i] in rest {
    }
  }

  lemma {:induction false} InsertSorts(groups: map<nat, Group>, o: Occurrence, s: seq<Occurrence>)
    requires Sorted(groups, s)
    ensures Sorted(groups, Insert(groups, o, s))
    ensures DistinctKeys(s) && (forall x :: x in s ==> x.key != o.key) ==> DistinctKeys(Insert(groups, o, s))
  {
    if s == [] {
    } else if Before(groups, o, s[0]) {
      FirstThenSorted(groups, o, s);
    } else {
      InsertSorts(groups, o, s[1..]);
      FirstThenSorted(groups, s[0], Insert(groups, o, s[1..]));
    }
  }

  lemma {:induction false} SortSorts(groups: map<nat, Group>, s: seq<Occurrence>)
    ensures Sorted(groups, Sort(groups, s))
    ensures DistinctKeys(s) ==> DistinctKeys(Sort(groups, s))
  {
    if s != [] {
      SortSorts(groups, s[..|s| - 1]);
      InsertSorts(groups, s[|s| - 1], Sort(groups, s[..|s| - 1]));
    }
  }

  // ---- Computing the calendar -------------------------------------------------------

  predicate InRange(groups: map<nat, Group>, start: int, end: int, k: Key) {
    k.0 in groups && start <= k.1 <= end
  }

  /**
    The calendar is exact: it lists every planned or stored lesson of the groups in the
    range once, each with its own session, in order of date, start and group name.
   */
  ghost predicate IsCalendar(t: Tables, groups: map<nat, Group>, start: int, end: int, out: seq<Occurrence>) {
    && Sorted(groups, out) && DistinctKeys(out)
    && (forall o :: o in out ==> InRange(groups, start, end, o.key) && Lesson(t, groups, o.key) == Some(o))
    && (forall k :: InRange(groups, start, end, k) && Lesson(t, groups, k).Some? ==> Listed(out, Lesson(t, groups, k).value))
  }

  lemma SortedIsCalendar(t: Tables, groups: map<nat, Group>, start: int, end: int, out: seq<Occurrence>, keys: set<Key>)
    requires Exactly(t, groups, out, keys)
    requires forall k :: k in keys <==> InRange(groups, start, end, k) && Lesson(t, groups, k).Some?
    ensures IsCalendar(t, groups, start, end, Sort(groups, out))
  {
    SortSorts(groups, out);
    forall o | o in Sort(groups, out)
      ensures InRange(groups, start, end, o.key) && Lesson(t, groups, o.key) == Some(o)
    {
      assert o in out;
    }
    forall k | InRange(groups, start, end, k) && Lesson(t, groups, k).Some?
      ensures Listed(Sort(groups, out), Lesson(t, groups, k).value)
    {
      assert k in keys && Listed(out, Lesson(t, groups, k).value);
    }
  }

  method OccurrencesForRange(t: Tables, groups: map<nat, Group>, start: int, end: int) returns (r: Answer)
    ensures r.RangeTooLong? <==> groups != map[] && end - start > LONGEST_RANGE
    ensures r.Found? && groups != map[] ==> IsCalendar(t, groups, start, end, r.list)
    ensures groups == map[] ==> r == Found([])
    ensures r.Found? ==> forall i, j :: 0 <= i < j < |r.list| ==>
      var (a, b) := (r.list[i].key, r.list[j].key);
      && a.1 <= b.1 && (a.1 == b.1 ==> a.2 <= b.2)
      && (a.1 == b.1 && a.2 == b.2 ==> groups[a.0].name <= groups[b.0].name)
  {
    if groups == map[] || start > end {
      return Found([]);
    }
    if end - start > LONGEST_RANGE {
      return RangeTooLong;
    }
    var out: seq<Occurrence>, seen: set<Key> := [], {};
    var day := start;
    while day <= end
      invariant start <= day <= end + 1 && Exactly(t, groups, out, seen)
      invariant forall k :: k in seen <==> Planned(t, groups, k) && start <= k.1 < day
    {
      out, seen := AddDay(t, groups, day, out, seen);
      day := day + 1;
    }
    out, seen := AddOrphans(t, groups, start, end, out, seen);
    SortedIsCalendar(t, groups, start, end, out, seen);
    r := Found(Sort(groups, out));
  }

  /** The planned lessons of one day. */
  method AddDay(t: Tables, groups: map<nat, Group>, day: int, out: seq<Occurrence>, seen: set<Key>)
    returns (more: seq<Occurrence>, now: set<Key>)
    requires Exactly(t, groups, out, seen) && forall k :: k in seen ==> k.1 < day
    ensures Exactly(t, groups, more, now)
    ensures forall k :: k in now <==> k in seen || (Planned(t, groups, k) && k.1 == day)
  {
    more, now := out, seen;
    var rules := set x | x in t.rules && t.rules[x].active && x.0 in groups;
    var rest := rules;
    while rest != {}
      invariant rest <= rules && Exactly(t, groups, more, now)
      invariant forall k :: k in now <==>
        k in seen || (Planned(t, groups, k) && k.1 == day && (k.0, AppWeekday(day), k.2) in rules - rest)
      decreases rest
    {
      var x :| x in rest;
      var k := (x.0, day, x.2);
      if Covers(groups[x.0], day) && x.1 == AppWeekday(day) && k !in now {
        var o := Occurrence(k, t.rules[x].end, Stored(t, k));
        OneMore(t, groups, more, now, o);
        more, now := more + [o], now + {k};
      }
      rest := rest - {x};
    }
  }

  /** The sessions whose rule is gone. */
  method AddOrphans(t: Tables, groups: map<nat, Group>, start: int, end: int, out: seq<Occurrence>, seen: set<Key>)
    returns (more: seq<Occurrence>, now: set<Key>)
    requires Exactly(t, groups, out, seen) && start <= end
    requires forall k :: k in seen <==> Planned(t, groups, k) && start <= k.1 <= end
    ensures Exactly(t, groups, more, now)
    ensures forall k :: k in now <==> InRange(groups, start, end, k) && Lesson(t, groups, k).Some?
  {
    more, now := out, seen;
    var sessions := set k | k in t.sessions && InRange(groups, start, end, k);
    var rest := sessions;
    while rest != {}
      invariant rest <= sessions && Exactly(t, groups, more, now)
      invariant forall k :: k in now <==> k in seen || k in sessions - rest
      decreases rest
    {
      var k :| k in rest;
      if k !in now {
        var o := Occurrence(k, t.sessions[k].end, Some(t.sessions[k]));
        OneMore(t, groups, more, now, o);
        more, now := more + [o], now + {k};
      }
      rest := rest - {k};
    }
  }

  /** A client's (group, date, start) becomes a lesson only if the calendar has it. */
  method FindOccurrence(t: Tables, group: nat, g: Group, day: int, start: nat) returns (o: Option<Occurrence>)
    ensures o == Lesson(t, map[group := g], (group, day, start))
  {
    var groups := map[group := g];
    var r := OccurrencesForRange(t, groups, day, day);
    var k := (group, day, start);
    for i := 0 to |r.list|
      invariant forall j :: 0 <= j < i ==> r.list[j].key.2 != start
    {
      if r.list[i].key.2 == start {
        assert r.list[i] in r.list;
        return Some(r.list[i]);
      }
    }
    o := None;
    assert InRange(groups, day, day, k);
    assert Lesson(t, groups, k).Some? ==> Listed(r.list, Lesson(t, groups, k).value);
  }

  lemma WeekdayOf(day: int)
    ensures AppWeekday(day) == day % 7
  {
  }

  /** A rule plans the same lesson every seven days and on no day between, within the group's dates. */
  lemma PlannedWeekly(t: Tables, groups: map<nat, Group>, k: Key, days: int)
    requires Planned(t, groups, k) && Covers(groups[k.0], k.1 + days)
    requires forall w :: (k.0, w, k.2) in t.rules ==> w == AppWeekday(k.1)
    ensures Planned(t, groups, (k.0, k.1 + days, k.2)) <==> days % 7 == 0
  {
    WeekdayRepeats(k.1, days);
  }

  lemma WeekdayRepeats(day: int, days: int)
    ensures AppWeekday(day + days) == AppWeekday(day) <==> days % 7 == 0
  {
    WeekdayOf(day);
    WeekdayOf(day + days);
    RemainderRepeats(day, days);
  }

  lemma RemainderRepeats(day: int, days: int)
    ensures (day + days) % 7 == day % 7 <==> days % 7 == 0
  {
    var q, m, e := day / 7 + days / 7, day % 7, days % 7;
    assert day + days == 7 * q + (m + e);
    if m + e < 7 {
      assert (day + days) % 7 == m + e;
    } else {
      assert day + days == 7 * (q + 1) + (m + e - 7);
    }
  }

  /**
    So where a group's only rule at a start time plans a lesson, the calendar has a lesson at
    that time on another covered day without a stored one exactly when whole weeks lie between.
   */
  lemma CalendarIsWeekly(t: Tables, groups: map<nat, Group>, start: int, end: int, out: seq<Occurrence>, k: Key, days: int)
    requires IsCalendar(t, groups, start, end, out) && Planned(t, groups, k)
    requires forall w :: (k.0, w, k.2) in t.rules ==> w == AppWeekday(k.1)
    requires var other := (k.0, k.1 + days, k.2);
      InRange(groups, start, end, other) && Covers(groups[k.0], k.1 + days) && other !in t.sessions
    ensures (exists o :: o in out && o.key == (k.0, k.1 + days, k.2)) <==> days % 7 == 0
  {
    var other := (k.0, k.1 + days, k.2);
    PlannedWeekly(t, groups, k, days);
    if days % 7 == 0 {
      assert Listed(out, Lesson(t, groups, other).value);
    } else {
      assert Lesson(t, groups, other).None?;
    }
  }
}
