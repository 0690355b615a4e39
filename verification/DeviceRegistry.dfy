/**
  The registry of connected devices (app/services/ai_face_ws.py): connection handlers,
  post-registration tasks and poll tasks share one dictionary from serial numbers to
  connection entries, and tell their own entry from a newer one by identity. Everything
  runs on one event loop, so steps interleave at the awaits.
 */
module DeviceRegistry {
  import opened Wrappers

  /** The sn field of a message: a text, a number, or null; a missing one is the empty text. */
  datatype Serial = Text(text: string) | Number(number: int) | Null

  /** Python takes the empty text, zero and null for false. */
  predicate Truthy(serial: Serial) {
    match serial
    case Text(text) => text != ""
    case Number(number) => number != 0
    case Null => false
  }

  type Command = nat

  /** A connection entry; its identity is its index. Pending are the commands with an unresolved future. */
  datatype Entry = Entry(serial: Serial, handler: nat, pending: set<Command>)

  /** A connection handler: its entry is the one of its last registration. */
  datatype Handler = Handler(open: bool, entry: Option<nat>, acking: bool)

  datatype PollPhase = Checking | Sleeping | Asking | Stopped

  /** A poll task is bound to the entry it was started for. */
  datatype Poll = Poll(entry: nat, phase: PollPhase)

  /** A post-registration task ends by starting its entry's poll task. */
  datatype Post = Post(entry: nat, done: bool)

  datatype State = State(
    entries: seq<Entry>,
    handlers: seq<Handler>,
    connections: map<Serial, nat>,
    posts: seq<Post>,
    polls: seq<Poll>)

  datatype Step =
    | Connect
    | Register(h: nat, serial: Serial)
    | Acknowledge(h: nat)
    | Answer(h: nat, command: Command)
    | Close(h: nat)
    | Send(serial: Serial, command: Command)
    | GiveUp(entry: nat, command: Command)
    | StartPoll(post: nat)
    | PollTurn(poll: nat, command: Command)

  function WithEntry(s: State, e: nat, entry: Entry): State
    requires e < |s.entries|
  {
    s.(entries := s.entries[e := entry])
  }

  /** A future for the command is put into the registered entry, if there is one. */
  function Sent(s: State, serial: Serial, command: Command): State {
    if serial !in s.connections || s.connections[serial] >= |s.entries| then s
    else
      var e := s.connections[serial];
      WithEntry(s, e, s.entries[e].(pending := s.entries[e].pending + {command}))
  }

  function Registered(s: State, h: nat, serial: Serial): State
    requires h < |s.handlers|
  {
    var e := |s.entries|;
    s.(entries := s.entries + [Entry(serial, h, {})],
       connections := s.connections[serial := e],
       handlers := s.handlers[h := Handler(true, Some(e), true)])
  }

  /** The handler's `finally` block, which unregisters an entry only if its serial is true to Python. */
  function Closed(s: State, h: nat): State
    requires h < |s.handlers|
  {
    var handler := s.handlers[h];
    var t := s.(handlers := s.handlers[h := handler.(open := false, acking := false)]);
    if handler.entry.None? || handler.entry.value >= |s.entries| then t
    else
      var e := handler.entry.value;
      var entry := s.entries[e];
      WithEntry(t, e, entry.(pending := {})).(
        connections :=
          if Truthy(entry.serial) && entry.serial in s.connections && s.connections[entry.serial] == e
          then s.connections - {entry.serial}
          else s.connections,
        polls := Cancelled(s.polls, e))
  }

  function Cancelled(polls: seq<Poll>, e: nat): (r: seq<Poll>)
    ensures |r| == |polls|
    ensures forall i :: 0 <= i < |r| ==>
      r[i] == polls[i].(phase := if polls[i].entry == e then Stopped else polls[i].phase)
  {
    seq(|polls|, i requires 0 <= i < |polls| => if polls[i].entry == e then polls[i].(phase := Stopped) else polls[i])
  }

  /** The task's identity check: its entry is still the registered one. */
  predicate IsCurrent(s: State, e: nat) {
    e < |s.entries| && s.entries[e].serial in s.connections && s.connections[s.entries[e].serial] == e
  }

  function Polled(s: State, p: nat, command: Command): State
    requires p < |s.polls|
  {
    var poll := s.polls[p];
    match poll.phase
    case Checking => s.(polls := s.polls[p := poll.(phase := if IsCurrent(s, poll.entry) then Sleeping else Stopped)])
    case Sleeping => s.(polls := s.polls[p := poll.(phase := if IsCurrent(s, poll.entry) then Asking else Stopped)])
    case Asking =>
      var t := s.(polls := s.polls[p := poll.(phase := Checking)]);
      if poll.entry < |s.entries| then Sent(t, s.entries[poll.entry].serial, command) else t
    case Stopped => s
  }

  function Next(s: State, step: Step): State {
    match step
    case Connect => s.(handlers := s.handlers + [Handler(true, None, false)])
    case Register(h, serial) =>
      if h < |s.handlers| && s.handlers[h].open && !s.handlers[h].acking then Registered(s, h, serial) else s
    case Acknowledge(h) =>
      if h < |s.handlers| && s.handlers[h].acking && s.handlers[h].entry.Some? then
        s.(handlers := s.handlers[h := s.handlers[h].(acking := false)],
           posts := s.posts + [Post(s.handlers[h].entry.value, false)])
      else s
    case Answer(h, command) =>
      if h < |s.handlers| && s.handlers[h].open && !s.handlers[h].acking && s.handlers[h].entry.Some?
         && s.handlers[h].entry.value < |s.entries| then
        var e := s.handlers[h].entry.value;
        WithEntry(s, e, s.entries[e].(pending := s.entries[e].pending - {command}))
      else s
    case Close(h) => if h < |s.handlers| && s.handlers[h].open then Closed(s, h) else s
    case Send(serial, command) => Sent(s, serial, command)
    case GiveUp(e, command) =>
      if e < |s.entries| then WithEntry(s, e, s.entries[e].(pending := s.entries[e].pending - {command})) else s
    case StartPoll(p) =>
      if p < |s.posts| && !s.posts[p].done then
        s.(posts := s.posts[p := s.posts[p].(done := true)], polls := s.polls + [Poll(s.posts[p].entry, Checking)])
      else s
    case PollTurn(p, command) => if p < |s.polls| then Polled(s, p, command) else s
  }

  function Empty(): State {
    State([], [], map[], [], [])
  }

  function Run(steps: seq<Step>): State {
    if steps == [] then Empty() else Next(Run(steps[..|steps| - 1]), steps[|steps| - 1])
  }

  // ---- The invariant ------------------------------------------------------------------

  /** The handler of the entry has ended, and the entry was its last. */
  predicate TornDown(s: State, e: nat) {
    && e < |s.entries| && s.entries[e].handler < |s.handlers|
    && !s.handlers[s.entries[e].handler].open && s.handlers[s.entries[e].handler].entry == Some(e)
  }

  /** Torn down by a handler that also looked whether to unregister it. */
  predicate Released(s: State, e: nat) {
    TornDown(s, e) && Truthy(s.entries[e].serial)
  }

  /** The entry of the latest registration of a serial. */
  ghost predicate Latest(s: State, serial: Serial, e: nat) {
    && e < |s.entries| && s.entries[e].serial == serial
    && forall d :: e < d < |s.entries| ==> s.entries[d].serial != serial
  }

  ghost predicate GoodHandler(s: State, h: nat)
    requires h < |s.handlers|
  {
    var handler := s.handlers[h];
    && (handler.entry.Some? ==> handler.entry.value < |s.entries| && s.entries[handler.entry.value].handler == h)
    && (handler.acking ==> handler.open && handler.entry.Some?)
    && (forall d :: 0 <= d < |s.entries| && s.entries[d].handler == h ==>
          handler.entry.Some? && d <= handler.entry.value)
  }

  ghost predicate GoodRegistry(s: State) {
    && (forall e :: 0 <= e < |s.entries| ==> s.entries[e].handler < |s.handlers|)
    && (forall h :: 0 <= h < |s.handlers| ==> GoodHandler(s, h))
    && (forall serial :: serial in s.connections ==>
          Latest(s, serial, s.connections[serial]) && !Released(s, s.connections[serial]))
    && (forall e: nat :: Released(s, e) ==> s.entries[e].pending == {})
  }

  /** The latest entry of a serial stays registered until it is released. */
  ghost predicate LatestAreCurrent(s: State) {
    forall e: nat :: e < |s.entries| && Latest(s, s.entries[e].serial, e) && !Released(s, e) ==> IsCurrent(s, e)
  }

  lemma StillLatest(s: State, t: State, e: nat)
    requires |t.entries| == |s.entries| && e < |t.entries| && Latest(t, t.entries[e].serial, e)
    requires forall d :: 0 <= d < |s.entries| ==> t.entries[d].serial == s.entries[d].serial
    ensures Latest(s, s.entries[e].serial, e)
  {
  }

  lemma SentKeepsRegistry(s: State, serial: Serial, command: Command)
    requires GoodRegistry(s)
    ensures GoodRegistry(Sent(s, serial, command))
  {
    var t := Sent(s, serial, command);
    forall h | 0 <= h < |t.handlers| ensures GoodHandler(t, h) {
      assert GoodHandler(s, h);
    }
    forall e: nat | Released(t, e) ensures t.entries[e].pending == {} {
      assert Released(s, e);
    }
  }

  lemma RegisterKeepsRegistry(s: State, h: nat, serial: Serial)
    requires GoodRegistry(s) && h < |s.handlers|
    ensures GoodRegistry(Registered(s, h, serial))
  {
    var t := Registered(s, h, serial);
    forall g | 0 <= g < |t.handlers| ensures GoodHandler(t, g) {
      assert GoodHandler(s, g);
    }
    forall e: nat | Released(t, e) ensures t.entries[e].pending == {} {
      assert e < |s.entries| ==> Released(s, e);
    }
    forall x | x in t.connections ensures Latest(t, x, t.connections[x]) && !Released(t, t.connections[x]) {
      if x != serial {
        assert Latest(s, x, s.connections[x]) && !Released(s, s.connections[x]);
      }
    }
  }

  lemma CloseKeepsRegistry(s: State, h: nat)
    requires GoodRegistry(s) && h < |s.handlers|
    ensures GoodRegistry(Closed(s, h))
  {
    var t := Closed(s, h);
    forall g | 0 <= g < |t.handlers| ensures GoodHandler(t, g) {
      assert GoodHandler(s, g);
    }
    assert GoodHandler(s, h);
    forall e: nat | Released(t, e) ensures t.entries[e].pending == {} {
      if s.entries[e].handler != h {
        assert Released(s, e);
      }
    }
    forall x | x in t.connections ensures Latest(t, x, t.connections[x]) && !Released(t, t.connections[x]) {
      assert Latest(s, x, s.connections[x]) && !Released(s, s.connections[x]);
    }
  }

  lemma NextKeepsRegistry(s: State, step: Step)
    requires GoodRegistry(s)
    ensures GoodRegistry(Next(s, step))
  {
    var t := Next(s, step);
    match step
    case Register(h, serial) =>
      if t != s {
        RegisterKeepsRegistry(s, h, serial);
      }
    case Close(h) =>
      if t != s {
        CloseKeepsRegistry(s, h);
      }
    case Send(serial, command) => SentKeepsRegistry(s, serial, command);
    case PollTurn(p, command) =>
      if p < |s.polls| && s.polls[p].phase == Asking && s.polls[p].entry < |s.entries| {
        var u := s.(polls := s.polls[p := s.polls[p].(phase := Checking)]);
        SameRegistry(s, u);
        SentKeepsRegistry(u, s.entries[s.polls[p].entry].serial, command);
      } else {
        SameRegistry(s, t);
      }
    case StartPoll(_) => SameRegistry(s, t);
    case _ => SameHandlersAndFewerFutures(s, t);
  }

  lemma SameRegistry(s: State, t: State)
    requires GoodRegistry(s) && t.entries == s.entries && t.handlers == s.handlers && t.connections == s.connections
    ensures GoodRegistry(t)
  {
    forall h | 0 <= h < |t.handlers| ensures GoodHandler(t, h) {
      assert GoodHandler(s, h);
    }
    forall e: nat | Released(t, e) ensures t.entries[e].pending == {} {
      assert Released(s, e);
    }
    forall x | x in t.connections ensures Latest(t, x, t.connections[x]) && !Released(t, t.connections[x]) {
      assert Latest(s, x, s.connections[x]) && !Released(s, s.connections[x]);
    }
  }

  /** New handlers, acknowledgements and resolved futures leave the rest as it is. */
  lemma SameHandlersAndFewerFutures(s: State, t: State)
    requires GoodRegistry(s) && t.connections == s.connections && |t.entries| == |s.entries|
    requires forall e :: 0 <= e < |s.entries| ==>
      t.entries[e] == s.entries[e].(pending := t.entries[e].pending) && t.entries[e].pending <= s.entries[e].pending
    requires |s.handlers| <= |t.handlers|
    requires forall h :: 0 <= h < |s.handlers| ==>
      t.handlers[h] == s.handlers[h] || t.handlers[h] == s.handlers[h].(acking := false)
    requires forall h :: |s.handlers| <= h < |t.handlers| ==> t.handlers[h] == Handler(true, None, false)
    ensures GoodRegistry(t)
  {
    forall h | 0 <= h < |t.handlers| ensures GoodHandler(t, h) {
      if h < |s.handlers| {
        assert GoodHandler(s, h);
      }
    }
    forall e: nat | Released(t, e) ensures t.entries[e].pending == {} {
      assert Released(s, e);
    }
    forall x | x in t.connections ensures Latest(t, x, t.connections[x]) && !Released(t, t.connections[x]) {
      assert Latest(s, x, s.connections[x]) && !Released(s, s.connections[x]);
    }
  }

  lemma RegisterKeepsLatest(s: State, h: nat, serial: Serial)
    requires GoodRegistry(s) && LatestAreCurrent(s) && h < |s.handlers| && s.handlers[h].open
    ensures LatestAreCurrent(Registered(s, h, serial))
  {
    var t := Registered(s, h, serial);
    var new_ := |s.entries|;
    assert t.entries[new_].serial == serial;
    forall e: nat | e < new_ && Latest(t, t.entries[e].serial, e) && !Released(t, e) ensures IsCurrent(t, e) {
      assert t.entries[e] == s.entries[e] && s.entries[e].serial != serial;
      assert forall d :: e < d < new_ ==> t.entries[d] == s.entries[d];
      assert !Released(s, e);
      assert Latest(s, s.entries[e].serial, e);
    }
  }

  lemma CloseKeepsLatest(s: State, h: nat)
    requires GoodRegistry(s) && LatestAreCurrent(s) && h < |s.handlers| && s.handlers[h].open
    ensures LatestAreCurrent(Closed(s, h))
  {
    var t := Closed(s, h);
    assert GoodHandler(s, h);
    forall e: nat | e < |t.entries| && Latest(t, t.entries[e].serial, e) && !Released(t, e) ensures IsCurrent(t, e) {
      StillLatest(s, t, e);
      assert GoodHandler(s, s.entries[e].handler) && !Released(s, e);
      assert IsCurrent(s, e);
      assert s.handlers[h].entry == Some(e) ==> !Truthy(s.entries[e].serial);
    }
  }

  /** Serials, handlers' entries and registrations are as they were; handlers may have been added. */
  ghost predicate SameRegistrations(s: State, t: State) {
    && t.connections == s.connections && |t.entries| == |s.entries| && |s.handlers| <= |t.handlers|
    && (forall e :: 0 <= e < |s.entries| ==>
          t.entries[e].serial == s.entries[e].serial && t.entries[e].handler == s.entries[e].handler)
    && (forall h :: 0 <= h < |s.handlers| ==>
          t.handlers[h].open == s.handlers[h].open && t.handlers[h].entry == s.handlers[h].entry)
  }

  lemma OtherStepsRegisterNothing(s: State, step: Step)
    requires !step.Register? && !step.Close?
    ensures SameRegistrations(s, Next(s, step))
  {
  }

  lemma OtherKeepsLatest(s: State, t: State)
    requires GoodRegistry(s) && LatestAreCurrent(s) && SameRegistrations(s, t)
    ensures LatestAreCurrent(t)
  {
    forall e: nat | e < |t.entries| && Latest(t, t.entries[e].serial, e) && !Released(t, e) ensures IsCurrent(t, e) {
      StillLatest(s, t, e);
      assert !Released(s, e);
    }
  }

  lemma NextKeepsLatest(s: State, step: Step)
    requires GoodRegistry(s) && LatestAreCurrent(s)
    ensures LatestAreCurrent(Next(s, step))
  {
    var t := Next(s, step);
    match step
    case Register(h, serial) =>
      if t != s {
        RegisterKeepsLatest(s, h, serial);
      }
    case Close(h) =>
      if t != s {
        CloseKeepsLatest(s, h);
      }
    case _ =>
      OtherStepsRegisterNothing(s, step);
      OtherKeepsLatest(s, t);
  }

  // ---- Tasks -----------------------------------------------------------------------------

  ghost predicate PostDone(s: State, e: nat) {
    exists j :: 0 <= j < |s.posts| && s.posts[j].entry == e && s.posts[j].done
  }

  /** Each entry gets at most one post-registration task, and each of these starts at most one poll task. */
  ghost predicate GoodTasks(s: State) {
    && (forall i :: 0 <= i < |s.posts| ==> s.posts[i].entry < |s.entries|)
    && (forall i, j :: 0 <= i < j < |s.posts| ==> s.posts[i].entry != s.posts[j].entry)
    && (forall h, i :: 0 <= h < |s.handlers| && 0 <= i < |s.posts| && s.handlers[h].acking ==>
          s.handlers[h].entry != Some(s.posts[i].entry))
    && (forall i, j :: 0 <= i < j < |s.polls| ==> s.polls[i].entry != s.polls[j].entry)
    && (forall i :: 0 <= i < |s.polls| ==> PostDone(s, s.polls[i].entry))
  }

  /** Acknowledging the same entry twice would start two tasks; two handlers never share an entry. */
  lemma HandlersOwnTheirEntries(s: State, g: nat, h: nat)
    requires GoodRegistry(s) && g < |s.handlers| && h < |s.handlers| && g != h && s.handlers[g].entry.Some?
    ensures s.handlers[g].entry != s.handlers[h].entry
  {
    assert GoodHandler(s, g) && GoodHandler(s, h);
  }

  lemma AcknowledgeKeepsTasks(s: State, h: nat)
    requires GoodRegistry(s) && GoodTasks(s)
    ensures GoodTasks(Next(s, Acknowledge(h)))
  {
    var t := Next(s, Acknowledge(h));
    if t != s {
      assert GoodHandler(s, h);
      forall g | 0 <= g < |t.handlers| && t.handlers[g].acking ensures t.handlers[g].entry != s.handlers[h].entry {
        assert g != h;
        assert GoodHandler(s, g);
        HandlersOwnTheirEntries(s, g, h);
      }
      forall i | 0 <= i < |t.polls| ensures PostDone(t, t.polls[i].entry) {
        DoneStays(s, t, s.polls[i].entry);
      }
    }
  }

  lemma DoneStays(s: State, t: State, e: nat)
    requires PostDone(s, e) && |s.posts| <= |t.posts|
    requires forall j :: 0 <= j < |s.posts| ==> t.posts[j].entry == s.posts[j].entry && (s.posts[j].done ==> t.posts[j].done)
    ensures PostDone(t, e)
  {
    var j :| 0 <= j < |s.posts| && s.posts[j].entry == e && s.posts[j].done;
    assert t.posts[j].done;
  }

  lemma StartPollKeepsTasks(s: State, p: nat)
    requires GoodTasks(s)
    ensures GoodTasks(Next(s, StartPoll(p)))
  {
    var t := Next(s, StartPoll(p));
    if t != s {
      forall i | 0 <= i < |s.polls| ensures PostDone(t, s.polls[i].entry) && s.polls[i].entry != s.posts[p].entry {
        DoneStays(s, t, s.polls[i].entry);
        var j :| 0 <= j < |s.posts| && s.posts[j].entry == s.polls[i].entry && s.posts[j].done;
        assert j != p;
      }
      assert t.posts[p].entry == s.posts[p].entry && t.posts[p].done;
      assert PostDone(t, s.posts[p].entry);
    }
  }

  /** Steps that start no task and begin no acknowledgement. */
  lemma SameTasks(s: State, t: State)
    requires GoodTasks(s) && t.posts == s.posts && |s.entries| <= |t.entries| && |t.polls| == |s.polls|
    requires forall i :: 0 <= i < |s.polls| ==> t.polls[i].entry == s.polls[i].entry
    requires forall h :: 0 <= h < |t.handlers| && t.handlers[h].acking ==>
      || (h < |s.handlers| && s.handlers[h].acking && t.handlers[h].entry == s.handlers[h].entry)
      || (t.handlers[h].entry.Some? && t.handlers[h].entry.value >= |s.entries|)
    ensures GoodTasks(t)
  {
    forall i | 0 <= i < |t.polls| ensures PostDone(t, t.polls[i].entry) {
      DoneStays(s, t, s.polls[i].entry);
    }
  }

  lemma NextKeepsTasks(s: State, step: Step)
    requires GoodRegistry(s) && GoodTasks(s)
    ensures GoodTasks(Next(s, step))
  {
    match step
    case Acknowledge(h) => AcknowledgeKeepsTasks(s, h);
    case StartPoll(p) => StartPollKeepsTasks(s, p);
    case _ => SameTasks(s, Next(s, step));
  }

  // ---- What holds in every reachable state ---------------------------------------------------

  ghost predicate Inv(s: State) {
    GoodRegistry(s) && LatestAreCurrent(s) && GoodTasks(s)
  }

  lemma NextKeepsInv(s: State, step: Step)
    requires Inv(s)
    ensures Inv(Next(s, step))
  {
    NextKeepsRegistry(s, step);
    NextKeepsLatest(s, step);
    NextKeepsTasks(s, step);
  }

  lemma {:induction false} RunKeepsInv(steps: seq<Step>)
    ensures Inv(Run(steps))
    decreases |steps|
  {
    if steps != [] {
      RunKeepsInv(steps[..|steps| - 1]);
      NextKeepsInv(Run(steps[..|steps| - 1]), steps[|steps| - 1]);
    }
  }

  /**
    An entry is registered exactly when it is the latest of its serial and has not been torn
    down, or has been but under a serial that Python takes for false.
   */
  lemma RegisteredExactly(steps: seq<Step>, e: nat)
    requires e < |Run(steps).entries|
    ensures var s := Run(steps);
      IsCurrent(s, e) <==> Latest(s, s.entries[e].serial, e) && !(TornDown(s, e) && Truthy(s.entries[e].serial))
  {
    RunKeepsInv(steps);
  }

  /** Each socket registers one serial only. */
  ghost predicate OneSerialPerSocket(s: State) {
    forall d, e :: 0 <= d < |s.entries| && 0 <= e < |s.entries| && s.entries[d].handler == s.entries[e].handler ==>
      s.entries[d].serial == s.entries[e].serial
  }

  /** The registered entry's handler is open, or its socket registered another serial later, or the serial is false. */
  ghost predicate Live(s: State, serial: Serial)
    requires serial in s.connections
  {
    var e := s.connections[serial];
    && e < |s.entries| && s.entries[e].serial == serial && s.entries[e].handler < |s.handlers|
    && (var handler := s.handlers[s.entries[e].handler];
        && (handler.open || !Truthy(serial) || (handler.entry.Some? && handler.entry.value < |s.entries|
                                               && s.entries[handler.entry.value].serial != serial))
        && (OneSerialPerSocket(s) ==> handler.entry == Some(e) && (Truthy(serial) ==> handler.open)))
  }

  lemma RegisteredIsLiveIn(s: State, serial: Serial)
    requires GoodRegistry(s) && serial in s.connections
    ensures Live(s, serial)
  {
    var e := s.connections[serial];
    assert Latest(s, serial, e) && !Released(s, e);
    assert GoodHandler(s, s.entries[e].handler);
  }

  /**
    A registered entry belongs to a live handler, unless that socket later registered another
    serial or the serial is false; with one serial per socket the registered entry is its
    handler's own.
   */
  lemma RegisteredIsLive(steps: seq<Step>, serial: Serial)
    requires serial in Run(steps).connections
    ensures Live(Run(steps), serial)
  {
    RunKeepsInv(steps);
    RegisteredIsLiveIn(Run(steps), serial);
  }

  /** The handler of the registered entry is still serving its socket. */
  predicate Served(s: State, serial: Serial)
    requires serial in s.connections
  {
    var e := s.connections[serial];
    e < |s.entries| && s.entries[e].handler < |s.handlers| && s.handlers[s.entries[e].handler].open
  }

  /** With one serial per socket, a serial is registered only while it is served in every run, or it is false. */
  lemma RegisteredIsServedExactly(serial: Serial)
    ensures Truthy(serial) <==> forall steps :: OneSerialPerSocket(Run(steps)) && serial in Run(steps).connections ==>
      Served(Run(steps), serial)
  {
    if Truthy(serial) {
      forall steps | OneSerialPerSocket(Run(steps)) && serial in Run(steps).connections ensures Served(Run(steps), serial) {
        RegisteredIsLive(steps, serial);
      }
    } else {
      var steps := FalseSerialStays(serial);
      assert OneSerialPerSocket(Run(steps)) && !Served(Run(steps), serial);
    }
  }

  /** A socket that registers under a false serial and closes leaves its dead entry registered. */
  lemma FalseSerialStays(serial: Serial) returns (steps: seq<Step>)
    requires !Truthy(serial)
    ensures Run(steps) ==
      State([Entry(serial, 0, {})], [Handler(false, Some(0), false)], map[serial := 0], [Post(0, false)], [])
    ensures TornDown(Run(steps), 0) && IsCurrent(Run(steps), 0)
  {
    steps := [];
    RunThen(steps, Connect);
    steps := steps + [Connect];
    RunThen(steps, Register(0, serial));
    steps := steps + [Register(0, serial)];
    assert Run(steps) == State([Entry(serial, 0, {})], [Handler(true, Some(0), true)], map[serial := 0], [], []);
    RunThen(steps, Acknowledge(0));
    steps := steps + [Acknowledge(0)];
    assert Run(steps) == State([Entry(serial, 0, {})], [Handler(true, Some(0), false)], map[serial := 0], [Post(0, false)], []);
    RunThen(steps, Close(0));
    steps := steps + [Close(0)];
  }

  /** There its late poll task passes both checks and puts a future into the dead entry. */
  lemma FalseSerialIsPolled(serial: Serial, command: Command) returns (steps: seq<Step>)
    requires !Truthy(serial)
    ensures var s := Run(steps); |s.entries| == 1 && TornDown(s, 0) && s.entries[0].pending == {command}
  {
    steps := FalseSerialStays(serial);
    RunThen(steps, StartPoll(0));
    steps := steps + [StartPoll(0)];
    assert Run(steps).polls == [Poll(0, Checking)];
    RunThen(steps, PollTurn(0, command));
    steps := steps + [PollTurn(0, command)];
    assert Run(steps).polls == [Poll(0, Sleeping)];
    RunThen(steps, PollTurn(0, command));
    steps := steps + [PollTurn(0, command)];
    assert Run(steps).polls == [Poll(0, Asking)];
    RunThen(steps, PollTurn(0, command));
    steps := steps + [PollTurn(0, command)];
  }

  lemma RunThen(steps: seq<Step>, step: Step)
    ensures Run(steps + [step]) == Next(Run(steps), step)
  {
    assert (steps + [step])[..|steps|] == steps;
  }

  /** A socket that registers two serials leaves the first one registered for good when it closes. */
  lemma TwoSerialsLeaveAStaleEntry(a: Serial, b: Serial) returns (steps: seq<Step>)
    requires a != b
    ensures var s := Run(steps);
      a in s.connections && s.connections[a] == 0 && |s.entries| == 2 && |s.handlers| == 1
      && s.entries[0].handler == 0 && !s.handlers[0].open
  {
    steps := [];
    RunThen(steps, Connect);
    steps := steps + [Connect];
    RunThen(steps, Register(0, a));
    steps := steps + [Register(0, a)];
    RunThen(steps, Acknowledge(0));
    steps := steps + [Acknowledge(0)];
    assert Run(steps) == State([Entry(a, 0, {})], [Handler(true, Some(0), false)], map[a := 0], [Post(0, false)], []);
    RunThen(steps, Register(0, b));
    steps := steps + [Register(0, b)];
    RunThen(steps, Close(0));
    steps := steps + [Close(0)];
  }

  /** The handler's closing unregisters its entry. */
  predicate Unregisters(s: State, step: Step, e: nat)
    requires e < |s.entries|
  {
    && step.Close? && step.h < |s.handlers| && s.handlers[step.h].open && s.handlers[step.h].entry == Some(e)
    && Truthy(s.entries[e].serial)
  }

  /** A new entry is registered under the serial of this one. */
  predicate Replaces(s: State, step: Step, e: nat)
    requires e < |s.entries|
  {
    && step.Register? && step.h < |s.handlers| && s.handlers[step.h].open && !s.handlers[step.h].acking
    && step.serial == s.entries[e].serial
  }

  /**
    A registration ends exactly when its serial is registered again or its own handler closes:
    the teardown of an older handler never removes a newer entry, nor does any other step.
   */
  lemma TeardownSparesOthers(steps: seq<Step>, step: Step, e: nat)
    requires e < |Run(steps).entries| && IsCurrent(Run(steps), e)
    ensures e < |Run(steps + [step]).entries|
    ensures !IsCurrent(Run(steps + [step]), e) <==> Unregisters(Run(steps), step, e) || Replaces(Run(steps), step, e)
    ensures Unregisters(Run(steps), step, e) ==> step.h == Run(steps).entries[e].handler
  {
    var s := Run(steps);
    RunKeepsInv(steps);
    RunThen(steps, step);
    if Unregisters(s, step, e) {
      assert GoodHandler(s, step.h);
    }
    CurrentAfter(s, step, e);
  }

  lemma CurrentAfter(s: State, step: Step, e: nat)
    requires IsCurrent(s, e)
    ensures !IsCurrent(Next(s, step), e) <==> Unregisters(s, step, e) || Replaces(s, step, e)
  {
    if !step.Register? && !step.Close? {
      OtherStepsRegisterNothing(s, step);
    }
  }

  /** At most one poll task per serial passes the identity check. */
  lemma OnePollPerSerial(steps: seq<Step>, p: nat, q: nat)
    requires p < |Run(steps).polls| && q < |Run(steps).polls|
    requires IsCurrent(Run(steps), Run(steps).polls[p].entry) && IsCurrent(Run(steps), Run(steps).polls[q].entry)
    requires Run(steps).entries[Run(steps).polls[p].entry].serial == Run(steps).entries[Run(steps).polls[q].entry].serial
    ensures p == q
  {
    RunKeepsInv(steps);
  }

  /** Once an entry is no longer registered, it never is again. */
  lemma OnceReplaced(s: State, step: Step, e: nat)
    requires e < |s.entries| && !IsCurrent(s, e)
    ensures e < |Next(s, step).entries| && !IsCurrent(Next(s, step), e)
  {
    if !step.Register? && !step.Close? {
      OtherStepsRegisterNothing(s, step);
    }
  }

  /** A poll task moves in its own turns only, unless its entry's teardown cancels it. */
  lemma PollMoves(s: State, step: Step, p: nat)
    requires p < |s.polls|
    ensures var t := Next(s, step);
      && p < |t.polls| && t.polls[p].entry == s.polls[p].entry
      && (Turn(step, p) == 0 ==> t.polls[p].phase == s.polls[p].phase || t.polls[p].phase == Stopped)
      && (Turn(step, p) == 1 && !IsCurrent(s, s.polls[p].entry) ==>
            t.polls[p].phase == if s.polls[p].phase == Asking then Checking else Stopped)
  {
  }

  /** The step is a turn of the poll task, and one in which it asks the device. */
  function Turn(step: Step, p: nat): nat {
    if step.PollTurn? && step.poll == p then 1 else 0
  }

  function Ask(s: State, step: Step, p: nat): nat {
    if p < |s.polls| && s.polls[p].phase == Asking then Turn(step, p) else 0
  }

  /** How often that happened after the given steps. */
  function Turns(more: seq<Step>, p: nat): nat {
    if more == [] then 0 else Turns(more[..|more| - 1], p) + Turn(more[|more| - 1], p)
  }

  function Asks(steps: seq<Step>, more: seq<Step>, p: nat): nat {
    if more == [] then 0
    else Asks(steps, more[..|more| - 1], p) + Ask(Run(steps + more[..|more| - 1]), more[|more| - 1], p)
  }

  /** What a poll task without a registered entry has left to do before it stops. */
  function TurnsLeft(phase: PollPhase): nat {
    match phase
    case Asking => 2
    case Stopped => 0
    case _ => 1
  }

  function AsksLeft(phase: PollPhase): nat {
    if phase == Asking then 1 else 0
  }

  /** The poll task is bound to an entry that is no longer registered. */
  ghost predicate Stale(s: State, p: nat) {
    p < |s.polls| && s.polls[p].entry < |s.entries| && !IsCurrent(s, s.polls[p].entry)
  }

  /** From one state to a later one a stale poll task had so many turns, and asked the device in so many of them. */
  ghost predicate WindsDown(s: State, t: State, p: nat, turns: nat, asks: nat) {
    && Stale(s, p) && Stale(t, p)
    && asks + AsksLeft(t.polls[p].phase) <= AsksLeft(s.polls[p].phase)
    && (t.polls[p].phase != Stopped ==> TurnsLeft(t.polls[p].phase) + turns <= TurnsLeft(s.polls[p].phase))
  }

  lemma StalePollStep(s: State, step: Step, p: nat)
    requires Stale(s, p)
    ensures WindsDown(s, Next(s, step), p, Turn(step, p), Ask(s, step, p))
  {
    OnceReplaced(s, step, s.polls[p].entry);
    PollMoves(s, step, p);
  }

  /** One step more. */
  lemma WindsDownFurther(s: State, t: State, step: Step, p: nat, turns: nat, asks: nat)
    requires WindsDown(s, t, p, turns, asks)
    ensures WindsDown(s, Next(t, step), p, turns + Turn(step, p), asks + Ask(t, step, p))
  {
    StalePollStep(t, step, p);
    PollMoves(t, step, p);
  }

  lemma {:induction false} StalePollsWindDown(steps: seq<Step>, more: seq<Step>, p: nat)
    requires Stale(Run(steps), p)
    ensures WindsDown(Run(steps), Run(steps + more), p, Turns(more, p), Asks(steps, more, p))
    decreases |more|
  {
    if more == [] {
      assert steps + more == steps;
    } else {
      var before, step := more[..|more| - 1], more[|more| - 1];
      StalePollsWindDown(steps, before, p);
      assert steps + more == (steps + before) + [step];
      RunThen(steps + before, step);
      WindsDownFurther(Run(steps), Run(steps + before), step, p, Turns(before, p), Asks(steps, before, p));
    }
  }

  /**
    A poll task whose entry is no longer registered asks the device at most once more, and
    only if it was past its check already; it stops at its next check, so after at most two
    turns, and in its other turns it touches no entry.
   */
  lemma StalePollsStop(steps: seq<Step>, more: seq<Step>, p: nat)
    requires p < |Run(steps).polls| && !IsCurrent(Run(steps), Run(steps).polls[p].entry)
    ensures Stale(Run(steps + more), p)
    ensures Asks(steps, more, p) <= AsksLeft(Run(steps).polls[p].phase)
    ensures TurnsLeft(Run(steps).polls[p].phase) <= Turns(more, p) ==> Run(steps + more).polls[p].phase == Stopped
    ensures Run(steps + more).polls[p].phase != Asking ==>
      forall command :: Next(Run(steps + more), PollTurn(p, command)).entries == Run(steps + more).entries
  {
    PollsHaveEntries(steps, p);
    StalePollsWindDown(steps, more, p);
    PollsTouchNothing(Run(steps + more), p);
  }

  lemma PollsHaveEntries(steps: seq<Step>, p: nat)
    requires p < |Run(steps).polls|
    ensures Run(steps).polls[p].entry < |Run(steps).entries|
  {
    RunKeepsInv(steps);
    assert PostDone(Run(steps), Run(steps).polls[p].entry);
  }

  lemma PollsTouchNothing(s: State, p: nat)
    requires p < |s.polls|
    ensures s.polls[p].phase != Asking ==> forall command :: Next(s, PollTurn(p, command)).entries == s.entries
  {
  }

  /**
    A torn-down entry holds no unresolved future and never gets one again, exactly unless its
    serial is false and it is still the latest: then every command sent to it adds one.
   */
  lemma TornDownIsQuiet(steps: seq<Step>, step: Step, e: nat)
    requires TornDown(Run(steps), e)
    ensures var s, t := Run(steps), Run(steps + [step]);
      && TornDown(t, e)
      && (Truthy(s.entries[e].serial) ==> s.entries[e].pending == {} && t.entries[e].pending == {})
      && (IsCurrent(s, e) <==> !Truthy(s.entries[e].serial) && Latest(s, s.entries[e].serial, e))
      && (!IsCurrent(s, e) ==> t.entries[e].pending <= s.entries[e].pending)
      && (IsCurrent(s, e) && step.Send? && step.serial == s.entries[e].serial ==>
            t.entries[e].pending == s.entries[e].pending + {step.command})
  {
    RunKeepsInv(steps);
    RunThen(steps, step);
    RunKeepsInv(steps + [step]);
    TornDownStays(Run(steps), step, e);
    if !IsCurrent(Run(steps), e) {
      FuturesOnlyWhileCurrent(Run(steps), step, e);
    }
  }

  lemma FuturesOnlyWhileCurrent(s: State, step: Step, e: nat)
    requires e < |s.entries| && !IsCurrent(s, e) && GoodRegistry(s)
    ensures e < |Next(s, step).entries| && Next(s, step).entries[e].pending <= s.entries[e].pending
  {
  }

  lemma TornDownStays(s: State, step: Step, e: nat)
    requires TornDown(s, e)
    ensures TornDown(Next(s, step), e) && Next(s, step).entries[e].serial == s.entries[e].serial
  {
  }

  // ---- Futures ---------------------------------------------------------------------------

  predicate IsPending(s: State, e: nat, command: Command) {
    e < |s.entries| && command in s.entries[e].pending
  }

  /** What resolves or drops the future of a command: its handler's answer or closing, or the sender gives up. */
  predicate Resolves(s: State, step: Step, e: nat, command: Command) {
    match step
    case Answer(h, answered) =>
      h < |s.handlers| && s.handlers[h].open && !s.handlers[h].acking && s.handlers[h].entry == Some(e) && answered == command
    case Close(h) => h < |s.handlers| && s.handlers[h].open && s.handlers[h].entry == Some(e)
    case GiveUp(entry, given) => entry == e && given == command
    case _ => false
  }

  /** A step ends the wait for a command exactly when it resolves it. */
  lemma PendingEndsExactly(s: State, step: Step, e: nat, command: Command)
    requires IsPending(s, e, command)
    ensures IsPending(Next(s, step), e, command) <==> !Resolves(s, step, e, command)
  {
  }

  /** A step starts the wait exactly when it sends the command to the registered entry, or a poll task does. */
  lemma PendingStartsExactly(s: State, step: Step, e: nat, command: Command)
    requires e < |s.entries| && !IsPending(s, e, command)
    ensures IsPending(Next(s, step), e, command) <==> Sends(s, step, e, command)
  {
  }

  predicate Sends(s: State, step: Step, e: nat, command: Command)
    requires e < |s.entries|
  {
    match step
    case Send(serial, sent) => sent == command && serial in s.connections && s.connections[serial] == e
    case PollTurn(p, sent) =>
      && sent == command && p < |s.polls| && s.polls[p].phase == Asking && s.polls[p].entry < |s.entries|
      && (var serial := s.entries[s.polls[p].entry].serial; serial in s.connections && s.connections[serial] == e)
    case _ => false
  }

  /** None of the steps resolves the command, each taken in the state it finds. */
  ghost predicate NoneResolves(steps: seq<Step>, more: seq<Step>, e: nat, command: Command) {
    more != [] ==>
      && NoneResolves(steps, more[..|more| - 1], e, command)
      && !Resolves(Run(steps + more[..|more| - 1]), more[|more| - 1], e, command)
  }

  lemma {:induction false} FutureStays(steps: seq<Step>, more: seq<Step>, e: nat, command: Command)
    requires IsPending(Run(steps), e, command) && NoneResolves(steps, more, e, command)
    ensures IsPending(Run(steps + more), e, command)
    decreases |more|
  {
    if more == [] {
      assert steps + more == steps;
    } else {
      var before, step := more[..|more| - 1], more[|more| - 1];
      FutureStays(steps, before, e, command);
      assert steps + more == (steps + before) + [step];
      RunThen(steps + before, step);
      PendingEndsExactly(Run(steps + before), step, e, command);
    }
  }

  /**
    A command sent to a registered entry stays pending there for as long as the entry's own
    handler neither answers it nor closes, and the sender does not give up.
   */
  lemma SentStaysPending(steps: seq<Step>, more: seq<Step>, serial: Serial, command: Command)
    requires serial in Run(steps).connections
    requires NoneResolves(steps + [Send(serial, command)], more, Run(steps).connections[serial], command)
    ensures IsPending(Run(steps + [Send(serial, command)] + more), Run(steps).connections[serial], command)
  {
    var e := Run(steps).connections[serial];
    RegisteredHasEntry(steps, serial);
    RunThen(steps, Send(serial, command));
    FutureStays(steps + [Send(serial, command)], more, e, command);
  }

  lemma RegisteredHasEntry(steps: seq<Step>, serial: Serial)
    requires serial in Run(steps).connections
    ensures Run(steps).connections[serial] < |Run(steps).entries|
  {
    RunKeepsInv(steps);
    assert Latest(Run(steps), serial, Run(steps).connections[serial]);
  }

  // ---- A connection handler ------------------------------------------------------------------

  datatype Message = Reg(serial: Serial) | Reply(command: Command) | Other

  class Bridge {
    var s: State

    constructor ()
      ensures Inv(s) && s == Empty()
    {
      s := Empty();
      new;
      RunKeepsInv([]);
    }

    method Do(step: Step)
      requires Inv(s)
      modifies this
      ensures Inv(s) && s == Next(old(s), step)
    {
      NextKeepsInv(s, step);
      s := Next(s, step);
    }

    /** What other handlers, tasks and request threads do while this handler waits. */
    method Others(steps: seq<Step>, h: nat)
      requires Inv(s) && h < |s.handlers| && forall i :: 0 <= i < |steps| ==> !ActsAsHandler(steps[i], h)
      modifies this
      ensures Inv(s) && h < |s.handlers| && s.handlers[h] == old(s.handlers[h]) && EntriesRemain(old(s), s)
      ensures steps == [] ==> s == old(s)
    {
      for i := 0 to |steps|
        invariant Inv(s) && h < |s.handlers| && s.handlers[h] == old(s.handlers[h]) && EntriesRemain(old(s), s)
        invariant i == 0 ==> s == old(s)
      {
        HandlerStays(s, steps[i], h);
        NextRemains(s, steps[i]);
        Do(steps[i]);
      }
    }

    /** A registration: a new entry, whose acknowledgement may fail to be sent. */
    method Enroll(h: nat, serial: Serial, others: seq<Step>, sent: bool)
      requires Inv(s) && h < |s.handlers| && s.handlers[h].open && !s.handlers[h].acking
      requires forall i :: 0 <= i < |others| ==> !ActsAsHandler(others[i], h)
      modifies this
      ensures Inv(s) && h < |s.handlers| && s.handlers[h] == Handler(true, Some(old(|s.entries|)), !sent)
      ensures old(|s.entries|) < |s.entries|
      ensures s.entries[old(|s.entries|)].serial == serial && s.entries[old(|s.entries|)].handler == h
      ensures sent ==> s.posts != [] && s.posts[|s.posts| - 1] == Post(old(|s.entries|), false)
      ensures others == [] ==> serial in s.connections && s.connections[serial] == old(|s.entries|)
      ensures others == [] ==> s == Handled(old(s), h, Reg(serial), sent)
    {
      Do(Register(h, serial));
      Others(others, h);
      if sent {
        Do(Acknowledge(h));
      }
    }

    /** A reply: the future of its command in the handler's entry is resolved. */
    method Resolve(h: nat, command: Command)
      requires Inv(s) && h < |s.handlers| && s.handlers[h].open && !s.handlers[h].acking
      modifies this
      ensures Inv(s) && s == Next(old(s), Answer(h, command)) == Answered(old(s), h, command)
      ensures |s.handlers| == old(|s.handlers|) && s.handlers[h] == old(s.handlers[h]) && EntriesRemain(old(s), s)
    {
      AnswerResolves(s, h, command);
      NextRemains(s, Answer(h, command));
      Do(Answer(h, command));
    }

    /**
      One message: a registration waits for its acknowledgement to be sent, which may fail; a
      reply resolves the future of its command in the handler's entry and no other.
     */
    method Handle(h: nat, m: Message, others: seq<Step>, sent: bool) returns (ok: bool)
      requires Inv(s) && h < |s.handlers| && s.handlers[h].open && !s.handlers[h].acking
      requires forall i :: 0 <= i < |others| ==> !ActsAsHandler(others[i], h)
      modifies this
      ensures Inv(s) && h < |s.handlers| && s.handlers[h].open && (ok ==> !s.handlers[h].acking)
      ensures m.Reg? ==>
        && s.handlers[h].entry == Some(old(|s.entries|)) && old(|s.entries|) < |s.entries|
        && s.entries[old(|s.entries|)].serial == m.serial && s.entries[old(|s.entries|)].handler == h
      ensures m.Reg? ==> (ok <==> sent)
      ensures m.Reg? && ok ==> s.posts != [] && s.posts[|s.posts| - 1] == Post(old(|s.entries|), false)
      ensures m.Reg? && others == [] ==> m.serial in s.connections && s.connections[m.serial] == old(|s.entries|)
      ensures !m.Reg? ==> ok && s.handlers[h] == old(s.handlers[h]) && EntriesRemain(old(s), s)
      ensures m.Reply? ==> s == Answered(old(s), h, m.command)
      ensures m.Other? && others == [] ==> s == old(s)
      ensures others == [] ==> s == Handled(old(s), h, m, sent)
    {
      ok := true;
      match m
      case Reg(serial) =>
        Enroll(h, serial, others, sent);
        ok := sent;
      case Reply(command) => Resolve(h, command);
      case Other => Others(others, h);
    }

    /** One more message of the connection. */
    method Attend(h: nat, ghost before: seq<Message>, m: Message, others: seq<Step>, sent: nat -> bool, k: nat,
                  ghost start: State, ghost alone: bool)
      returns (ok: bool)
      requires Inv(s) && h < |s.handlers| && s.handlers[h].open && !s.handlers[h].acking && k == |before|
      requires forall i :: 0 <= i < |others| ==> !ActsAsHandler(others[i], h)
      requires EntryOf(s, h, LastSerial(before))
      requires alone ==> others == [] && s == HandledAll(start, h, before, sent)
      modifies this
      ensures Inv(s) && h < |s.handlers| && s.handlers[h].open && (ok ==> !s.handlers[h].acking)
      ensures ok <==> !AckFails(m, sent(k))
      ensures EntryOf(s, h, LastSerial(before + [m]))
      ensures alone ==> s == HandledAll(start, h, before + [m], sent)
    {
      ghost var was := s;
      ok := Handle(h, m, others, sent(k));
      EntryStays(was, s, h, m, LastSerial(before));
      assert (before + [m])[..k] == before;
    }

    method Open() returns (h: nat)
      requires Inv(s)
      modifies this
      ensures Inv(s) && s == Next(old(s), Connect) && h == old(|s.handlers|) < |s.handlers|
      ensures s.handlers[h] == Handler(true, None, false)
    {
      h := |s.handlers|;
      Do(Connect);
    }

    /** However the connection ends, its entry is torn down, and unregistered unless its serial is false. */
    method Disconnect(h: nat, ghost serial: Option<Serial>)
      requires Inv(s) && h < |s.handlers| && s.handlers[h].open && EntryOf(s, h, serial)
      modifies this
      ensures Inv(s) && h < |s.handlers| && !s.handlers[h].open && s == Next(old(s), Close(h)) && EntryOf(s, h, serial)
      ensures s.handlers[h].entry.Some? ==>
        var e := s.handlers[h].entry.value;
        TornDown(s, e) && (IsCurrent(s, e) <==> !Truthy(s.entries[e].serial) && Latest(s, s.entries[e].serial, e))
    {
      assert GoodHandler(s, h);
      CloseKeepsEntry(s, h, serial);
      Do(Close(h));
      assert GoodHandler(s, h);
    }

    /** A connection from first to last message, or to the first registration whose acknowledgement cannot be sent. */
    method Serve(messages: seq<Message>, others: nat -> seq<Step>, sent: nat -> bool) returns (h: nat, served: nat)
      requires Inv(s)
      requires forall k, i :: 0 <= i < |others(k)| ==> !ActsAsHandler(others(k)[i], |s.handlers|)
      modifies this
      ensures Inv(s) && h == old(|s.handlers|) < |s.handlers| && !s.handlers[h].open
      ensures s.handlers[h].entry.Some? ==>
        var e := s.handlers[h].entry.value;
        TornDown(s, e) && (IsCurrent(s, e) <==> !Truthy(s.entries[e].serial) && Latest(s, s.entries[e].serial, e))
      ensures UntilFailure(messages, sent, served) && EntryOf(s, h, LastSerial(messages[..served]))
      ensures (forall k :: others(k) == []) ==>
        s == Next(HandledAll(Next(old(s), Connect), h, messages[..served], sent), Close(h))
    {
      h := Open();
      served := 0;
      ghost var start, alone := s, forall j :: others(j) == [];
      var ok := true;
      while served < |messages| && ok
        invariant Inv(s) && h < |s.handlers| && s.handlers[h].open && (ok ==> !s.handlers[h].acking)
        invariant ServedSoFar(messages, sent, served, ok)
        invariant EntryOf(s, h, LastSerial(messages[..served]))
        invariant alone ==> s == HandledAll(start, h, messages[..served], sent)
        decreases |messages| - served
      {
        ok := Attend(h, messages[..served], messages[served], others(served), sent, served, start, alone);
        assert messages[..served] + [messages[served]] == messages[..served + 1];
        served := served + 1;
      }
      Disconnect(h, LastSerial(messages[..served]));
    }
  }

  /** What a message does while nothing else happens. */
  function Handled(s: State, h: nat, m: Message, sent: bool): State {
    match m
    case Reg(serial) => if sent then Next(Next(s, Register(h, serial)), Acknowledge(h)) else Next(s, Register(h, serial))
    case Reply(command) => Next(s, Answer(h, command))
    case Other => s
  }

  function HandledAll(s: State, h: nat, messages: seq<Message>, sent: nat -> bool): State {
    if messages == [] then s
    else
      var n := |messages| - 1;
      Handled(HandledAll(s, h, messages[..n], sent), h, messages[n], sent(n))
  }

  predicate AckFails(m: Message, sent: bool) {
    m.Reg? && !sent
  }

  /** All messages are served, or those up to the first registration whose acknowledgement fails. */
  ghost predicate UntilFailure(messages: seq<Message>, sent: nat -> bool, served: nat) {
    && served <= |messages|
    && (forall k :: 0 <= k < served - 1 ==> !AckFails(messages[k], sent(k)))
    && (served < |messages| ==> served > 0 && AckFails(messages[served - 1], sent(served - 1)))
  }

  ghost predicate ServedSoFar(messages: seq<Message>, sent: nat -> bool, served: nat, ok: bool) {
    && served <= |messages|
    && (forall k :: 0 <= k < served - 1 ==> !AckFails(messages[k], sent(k)))
    && (ok <==> served == 0 || !AckFails(messages[served - 1], sent(served - 1)))
  }

  /** The serial of the last registration. */
  function LastSerial(messages: seq<Message>): Option<Serial> {
    if messages == [] then None
    else if messages[|messages| - 1].Reg? then Some(messages[|messages| - 1].serial)
    else LastSerial(messages[..|messages| - 1])
  }

  /** The handler's entry is one of that serial, or it has none. */
  ghost predicate EntryOf(s: State, h: nat, serial: Option<Serial>)
    requires h < |s.handlers|
  {
    match s.handlers[h].entry
    case None => serial == None
    case Some(e) => e < |s.entries| && serial == Some(s.entries[e].serial)
  }

  lemma EntryStays(s: State, t: State, h: nat, m: Message, serial: Option<Serial>)
    requires h < |s.handlers| && h < |t.handlers| && EntryOf(s, h, serial)
    requires if m.Reg? then t.handlers[h].entry == Some(|s.entries|) && |s.entries| < |t.entries|
                            && t.entries[|s.entries|].serial == m.serial
             else t.handlers[h] == s.handlers[h] && EntriesRemain(s, t)
    ensures EntryOf(t, h, if m.Reg? then Some(m.serial) else serial)
  {
  }

  lemma CloseKeepsEntry(s: State, h: nat, serial: Option<Serial>)
    requires Inv(s) && h < |s.handlers| && EntryOf(s, h, serial)
    ensures h < |Next(s, Close(h)).handlers| && EntryOf(Next(s, Close(h)), h, serial)
  {
  }

  /** After an answer the command is no longer pending in the handler's entry; its other commands and all other entries stay. */
  function Answered(s: State, h: nat, command: Command): State
    requires h < |s.handlers|
  {
    var entry := s.handlers[h].entry;
    if entry.None? || entry.value >= |s.entries| then s
    else
      var was := s.entries[entry.value];
      s.(entries := s.entries[..entry.value] + [Entry(was.serial, was.handler, was.pending - {command})] + s.entries[entry.value + 1..])
  }

  lemma AnswerResolves(s: State, h: nat, command: Command)
    requires h < |s.handlers| && s.handlers[h].open && !s.handlers[h].acking
    ensures Next(s, Answer(h, command)) == Answered(s, h, command)
  {
  }

  /** Entries keep their serial and handler for good. */
  ghost predicate EntriesRemain(s: State, t: State) {
    && |s.entries| <= |t.entries|
    && forall e :: 0 <= e < |s.entries| ==>
         t.entries[e].serial == s.entries[e].serial && t.entries[e].handler == s.entries[e].handler
  }

  lemma NextRemains(s: State, step: Step)
    ensures EntriesRemain(s, Next(s, step))
  {
  }

  predicate ActsAsHandler(step: Step, h: nat) {
    (step.Register? || step.Acknowledge? || step.Answer? || step.Close?) && step.h == h
  }

  lemma HandlerStays(s: State, step: Step, h: nat)
    requires h < |s.handlers| && !ActsAsHandler(step, h)
    ensures h < |Next(s, step).handlers| && Next(s, step).handlers[h] == s.handlers[h]
  {
  }
}
