/**
  The durable push queue (app/services/durable_queue.py): jobs live in a main Redis list
  and in one processing list per consumer. A consumer moves a job into its own list, runs
  it, and removes it; consumers may die between any two Redis calls, heartbeats may expire
  at any time, and other consumers move the entries of a consumer without heartbeat back.
 */
module DurableQueue {
  import opened Wrappers

  type Consumer = nat
  type Task = nat

  /** A stored entry. Entries are compared by value, as LREM does. */
  datatype Job = Job(id: nat, task: Task, attempts: int)

  /** Where a consumer thread stands between two Redis calls. */
  datatype Phase =
    | Idle
    | Ready
    | Suspecting(victim: Consumer)
    | Reclaiming(victim: Consumer, moved: nat)
    | Running(job: Job)
    | Failing(job: Job)
    | Finishing(job: Job)
    | Gone

  /** Redis, the consumers, and a history: ids issued, accepted by the producer and disposed of, and runs started. */
  datatype State = State(
    main: seq<Job>,
    lists: map<Consumer, seq<Job>>,
    alive: set<Consumer>,
    phases: map<Consumer, Phase>,
    issued: map<nat, Task>,
    accepted: set<nat>,
    succeeded: set<nat>,
    exhausted: set<nat>,
    abandoned: set<nat>,
    unknown: set<nat>,
    runs: map<nat, nat>)

  /** maxAttempts as configured, and the tasks each consumer's process has registered. */
  datatype Config = Config(maxAttempts: int, knows: (Consumer, Task) -> bool)

  const RECLAIM_BOUND := 1000

  function Entries(s: State, c: Consumer): seq<Job> {
    if c in s.lists then s.lists[c] else []
  }

  function PhaseOf(s: State, c: Consumer): Phase {
    if c in s.phases then s.phases[c] else Idle
  }

  function Runs(s: State, id: nat): nat {
    if id in s.runs then s.runs[id] else 0
  }

  /** One try always happens, whatever the setting says. */
  function Limit(cfg: Config): (n: int)
    ensures n >= 1 && n >= cfg.maxAttempts
  {
    if cfg.maxAttempts < 1 then 1 else cfg.maxAttempts
  }

  /** LREM key 1 value: the first equal entry goes. */
  function Without(s: seq<Job>, j: Job): (r: seq<Job>)
    ensures forall k :: k in r ==> k in s
    ensures forall k :: k in s && k != j ==> k in r
  {
    if s == [] then [] else if s[0] == j then s[1..] else [s[0]] + Without(s[1..], j)
  }

  /** Cutting off the last entry loses at most that one. */
  lemma {:induction false} WithoutLast(s: seq<Job>, j: Job, k: Job)
    requires s != [] && k in Without(s, j) && k != s[|s| - 1]
    ensures k in Without(s[..|s| - 1], j)
  {
    var shorter := s[..|s| - 1];
    if shorter != [] {
      assert shorter[0] == s[0] && s[1..][..|s| - 2] == shorter[1..];
      if s[0] == j {
        var i :| 0 <= i < |s[1..]| && s[1..][i] == k;
        assert shorter[1..][i] == k;
      } else if k != s[0] {
        WithoutLast(s[1..], j, k);
      }
    }
  }

  // ---- Steps: one Redis call, task outcome or mishap each -------------------------

  datatype Step =
    | Enqueue(id: nat, task: Task, acknowledged: bool)
    | Beat(c: Consumer)
    | Scan(c: Consumer, victim: Consumer)
    | Check(c: Consumer)
    | Move(c: Consumer)
    | EndReclaim(c: Consumer)
    | Take(c: Consumer, heard: bool)
    | Succeed(c: Consumer)
    | Fail(c: Consumer)
    | Requeue(c: Consumer, pushed: bool)
    | Remove(c: Consumer, removed: bool)
    | Stop(c: Consumer)
    | Crash(c: Consumer)
    | Expire(c: Consumer)

  function At(s: State, c: Consumer, p: Phase): State {
    s.(phases := s.phases[c := p])
  }

  /** The step's effect; a step that is not enabled changes nothing. */
  function Next(cfg: Config, s: State, step: Step): State {
    match step
    case Enqueue(id, task, acknowledged) =>
      if id in s.issued then s
      else s.(main := [Job(id, task, 0)] + s.main, issued := s.issued[id := task],
              accepted := if acknowledged then s.accepted + {id} else s.accepted)
    case Beat(c) => if PhaseOf(s, c) != Idle then s else At(s, c, Ready).(alive := s.alive + {c})
    case Scan(c, victim) =>
      if PhaseOf(s, c) != Ready || victim == c || Entries(s, victim) == [] then s
      else At(s, c, Suspecting(victim))
    case Check(c) =>
      if !PhaseOf(s, c).Suspecting? then s
      else if PhaseOf(s, c).victim in s.alive then At(s, c, Ready)
      else At(s, c, Reclaiming(PhaseOf(s, c).victim, 0))
    case Move(c) =>
      if !PhaseOf(s, c).Reclaiming? || PhaseOf(s, c).moved >= RECLAIM_BOUND then s
      else MoveLast(s, c, PhaseOf(s, c).victim, PhaseOf(s, c).moved)
    case EndReclaim(c) => if PhaseOf(s, c).Reclaiming? then At(s, c, Ready) else s
    case Take(c, heard) =>
      if PhaseOf(s, c) != Ready then s
      else if s.main == [] then At(s, c, Idle)
      else TakeLast(s, c, heard)
    case Succeed(c) =>
      if !PhaseOf(s, c).Running? then s
      else
        var job := PhaseOf(s, c).job;
        var t := At(s, c, Finishing(job));
        if cfg.knows(c, job.task) then t.(succeeded := s.succeeded + {job.id})
        else t.(unknown := s.unknown + {job.id})
    case Fail(c) =>
      if PhaseOf(s, c).Running? && cfg.knows(c, PhaseOf(s, c).job.task) then At(s, c, Failing(PhaseOf(s, c).job)) else s
    case Requeue(c, pushed) =>
      if !PhaseOf(s, c).Failing? then s
      else
        var job := PhaseOf(s, c).job;
        var t := At(s, c, Finishing(job));
        if job.attempts + 1 >= cfg.maxAttempts then t.(exhausted := s.exhausted + {job.id})
        else if pushed then t.(main := [job.(attempts := job.attempts + 1)] + s.main)
        else t.(abandoned := s.abandoned + {job.id})
    case Remove(c, removed) =>
      if !PhaseOf(s, c).Finishing? then s
      else if removed then At(s, c, Idle).(lists := s.lists[c := Without(Entries(s, c), PhaseOf(s, c).job)])
      else At(s, c, Idle)
    case Stop(c) => if PhaseOf(s, c) == Idle then At(s, c, Gone).(alive := s.alive - {c}) else s
    case Crash(c) => At(s, c, Gone)
    case Expire(c) => s.(alive := s.alive - {c})
  }

  /** RPOPLPUSH from the victim's list to the main list. */
  function MoveLast(s: State, c: Consumer, victim: Consumer, moved: nat): State {
    var list := Entries(s, victim);
    if list == [] then At(s, c, Ready)
    else At(s, c, Reclaiming(victim, moved + 1)).(
           main := [list[|list| - 1]] + s.main,
           lists := s.lists[victim := list[..|list| - 1]])
  }

  /** BRPOPLPUSH from the main list to the consumer's own; the reply may be lost. */
  function TakeLast(s: State, c: Consumer, heard: bool): State
    requires s.main != []
  {
    var job := s.main[|s.main| - 1];
    var t := s.(main := s.main[..|s.main| - 1], lists := s.lists[c := [job] + Entries(s, c)]);
    if heard then At(t, c, Running(job)).(runs := s.runs[job.id := Runs(s, job.id) + 1])
    else At(t, c, Idle)
  }

  const EMPTY := State([], map[], {}, map[], map[], {}, {}, {}, {}, {}, map[])

  function Run(cfg: Config, s: State, steps: seq<Step>): State {
    if steps == [] then s else Next(cfg, Run(cfg, s, steps[..|steps| - 1]), steps[|steps| - 1])
  }

  // ---- Nothing is lost ----------------------------------------------------------------

  /** The entries of c that do not belong to a job it has finished with. */
  function Spare(s: State, c: Consumer): seq<Job> {
    if PhaseOf(s, c).Finishing? then Without(Entries(s, c), PhaseOf(s, c).job) else Entries(s, c)
  }

  predicate InMain(s: State, id: nat) {
    exists i :: 0 <= i < |s.main| && s.main[i].id == id
  }

  ghost predicate InSpare(s: State, id: nat) {
    exists c, j :: j in Spare(s, c) && j.id == id
  }

  ghost predicate HasCopy(s: State, id: nat) {
    InMain(s, id) || InSpare(s, id)
  }

  predicate Resolved(s: State, id: nat) {
    id in s.succeeded || id in s.exhausted || id in s.abandoned || id in s.unknown
  }

  /** A stored entry carries its task, and fewer attempts than the limit and than runs begun. */
  predicate Good(cfg: Config, s: State, j: Job) {
    && j.id in s.issued && s.issued[j.id] == j.task
    && 0 <= j.attempts < Limit(cfg) && j.attempts <= Runs(s, j.id)
  }

  predicate GoodPhase(cfg: Config, s: State, p: Phase) {
    && (p.Running? || p.Failing? ==> Good(cfg, s, p.job) && p.job.attempts < Runs(s, p.job.id))
    && (p.Finishing? ==> Good(cfg, s, p.job))
  }

  ghost predicate GoodEntries(cfg: Config, s: State) {
    && (forall j :: j in s.main ==> Good(cfg, s, j))
    && (forall c, j :: j in Entries(s, c) ==> Good(cfg, s, j))
    && (forall c :: GoodPhase(cfg, s, PhaseOf(s, c)))
  }

  ghost predicate Missing(cfg: Config, task: Task) {
    exists c :: !cfg.knows(c, task)
  }

  /** What the records of a disposed job mean. */
  ghost predicate GoodHistory(cfg: Config, s: State) {
    && s.accepted <= s.issued.Keys
    && (forall id :: id in s.exhausted ==> Runs(s, id) >= Limit(cfg))
    && (forall id :: id in s.unknown ==> id in s.issued && Missing(cfg, s.issued[id]))
  }

  ghost predicate Kept(s: State) {
    forall id :: id in s.accepted ==> Resolved(s, id) || HasCopy(s, id)
  }

  lemma InMainWhere(s: State, i: nat)
    requires i < |s.main|
    ensures HasCopy(s, s.main[i].id)
  {
  }

  /** The entries of a consumer that stay where they are still count. */
  lemma SpareStays(s: State, t: State, c: Consumer, j: Job)
    requires j in Spare(s, c) && PhaseOf(s, c) == PhaseOf(t, c) && Entries(s, c) == Entries(t, c)
    ensures HasCopy(t, j.id)
  {
    assert j in Spare(t, c);
  }

  lemma MainGrows(s: State, t: State, more: seq<Job>, id: nat)
    requires InMain(s, id) && t.main == more + s.main
    ensures HasCopy(t, id)
  {
    var i :| 0 <= i < |s.main| && s.main[i].id == id;
    assert t.main[|more| + i].id == id;
  }

  lemma MoveKeepsCopies(s: State, c: Consumer, victim: Consumer, moved: nat, id: nat)
    requires HasCopy(s, id) && c != victim && !PhaseOf(s, c).Finishing?
    ensures HasCopy(MoveLast(s, c, victim, moved), id)
  {
    var t := MoveLast(s, c, victim, moved);
    var list := Entries(s, victim);
    if InMain(s, id) {
      MainGrows(s, t, if list == [] then [] else [list[|list| - 1]], id);
    } else {
      var d, j :| j in Spare(s, d) && j.id == id;
      if d == victim && list != [] {
        VictimKeepsCopy(s, t, victim, j);
      } else if d != c {
        SpareStays(s, t, d, j);
      } else {
        assert j in Spare(t, c);
      }
    }
  }

  /** The entry that leaves the victim's list is in the main list; the others are still with the victim. */
  lemma VictimKeepsCopy(s: State, t: State, victim: Consumer, j: Job)
    requires j in Spare(s, victim) && Entries(s, victim) != [] && PhaseOf(t, victim) == PhaseOf(s, victim)
    requires var list := Entries(s, victim);
      t.main == [list[|list| - 1]] + s.main && Entries(t, victim) == list[..|list| - 1]
    ensures HasCopy(t, j.id)
  {
    var list := Entries(s, victim);
    if j == list[|list| - 1] {
      InMainWhere(t, 0);
    } else {
      if PhaseOf(s, victim).Finishing? {
        WithoutLast(list, PhaseOf(s, victim).job, j);
      } else {
        assert j in list[..|list| - 1];
      }
      assert j in Spare(t, victim);
    }
  }

  lemma TakeKeepsCopies(s: State, c: Consumer, heard: bool, id: nat)
    requires HasCopy(s, id) && s.main != [] && !PhaseOf(s, c).Finishing?
    ensures HasCopy(TakeLast(s, c, heard), id)
  {
    var t := TakeLast(s, c, heard);
    var job := s.main[|s.main| - 1];
    if InMain(s, id) {
      var i :| 0 <= i < |s.main| && s.main[i].id == id;
      if i < |s.main| - 1 {
        assert t.main[i].id == id;
      } else {
        assert job in Spare(t, c);
      }
    } else {
      var d, j :| j in Spare(s, d) && j.id == id;
      assert j in Spare(t, d);
    }
  }

  /** Steps that leave the lists alone, or only push to the main list, and finish with no job. */
  lemma StillThere(s: State, t: State, more: seq<Job>, id: nat)
    requires HasCopy(s, id) && t.lists == s.lists && t.main == more + s.main
    requires forall c :: PhaseOf(t, c).Finishing? ==> PhaseOf(t, c) == PhaseOf(s, c)
    ensures HasCopy(t, id)
  {
    if InMain(s, id) {
      MainGrows(s, t, more, id);
    } else {
      var d, j :| j in Spare(s, d) && j.id == id;
      assert j in Spare(t, d);
    }
  }

  /** Finishing with a job gives up its own copy, which is fine once the job is disposed of or pushed again. */
  lemma FinishKeepsCopies(s: State, t: State, c: Consumer, job: Job, more: seq<Job>, id: nat)
    requires HasCopy(s, id) && t.lists == s.lists && t.main == more + s.main
    requires t.phases == s.phases[c := Finishing(job)] && !PhaseOf(s, c).Finishing?
    requires Resolved(t, job.id) || InMain(t, job.id)
    ensures Resolved(t, id) || HasCopy(t, id)
  {
    if InMain(s, id) {
      MainGrows(s, t, more, id);
    } else {
      var d, j :| j in Spare(s, d) && j.id == id;
      assert j == job || j in Spare(t, d);
    }
  }

  lemma QuietStepKeepsCopies(cfg: Config, s: State, step: Step, id: nat)
    requires HasCopy(s, id) && Quiet(step)
    ensures HasCopy(Next(cfg, s, step), id)
  {
    var t := Next(cfg, s, step);
    forall c | PhaseOf(t, c).Finishing? ensures PhaseOf(t, c) == PhaseOf(s, c) {
      QuietStepFinishesNothing(cfg, s, step, c);
    }
    QuietStepKeepsLists(cfg, s, step);
    assert t.main == [] + s.main;
    StillThere(s, t, [], id);
  }

  predicate Quiet(step: Step) {
    step.Beat? || step.Scan? || step.Check? || step.EndReclaim? || step.Fail? || step.Stop? || step.Crash? || step.Expire?
  }

  lemma QuietStepFinishesNothing(cfg: Config, s: State, step: Step, c: Consumer)
    requires Quiet(step)
    ensures PhaseOf(Next(cfg, s, step), c).Finishing? ==> PhaseOf(Next(cfg, s, step), c) == PhaseOf(s, c)
  {
  }

  lemma QuietStepKeepsLists(cfg: Config, s: State, step: Step)
    requires Quiet(step)
    ensures Next(cfg, s, step).main == s.main && Next(cfg, s, step).lists == s.lists
  {
  }

  lemma SucceedKeepsCopies(cfg: Config, s: State, c: Consumer, id: nat)
    requires HasCopy(s, id)
    ensures var t := Next(cfg, s, Succeed(c)); Resolved(t, id) || HasCopy(t, id)
  {
    if PhaseOf(s, c).Running? {
      FinishKeepsCopies(s, Next(cfg, s, Succeed(c)), c, PhaseOf(s, c).job, [], id);
    }
  }

  lemma RequeueKeepsCopies(cfg: Config, s: State, c: Consumer, pushed: bool, id: nat)
    requires HasCopy(s, id)
    ensures var t := Next(cfg, s, Requeue(c, pushed)); Resolved(t, id) || HasCopy(t, id)
  {
    if PhaseOf(s, c).Failing? {
      var t, job := Next(cfg, s, Requeue(c, pushed)), PhaseOf(s, c).job;
      if job.attempts + 1 < cfg.maxAttempts && pushed {
        assert t.main[0].id == job.id;
        FinishKeepsCopies(s, t, c, job, [job.(attempts := job.attempts + 1)], id);
      } else {
        FinishKeepsCopies(s, t, c, job, [], id);
      }
    }
  }

  lemma RemoveKeepsCopies(cfg: Config, s: State, c: Consumer, removed: bool, id: nat)
    requires HasCopy(s, id)
    ensures HasCopy(Next(cfg, s, Remove(c, removed)), id)
  {
    var t := Next(cfg, s, Remove(c, removed));
    if InMain(s, id) {
      MainGrows(s, t, [], id);
    } else {
      var d, j :| j in Spare(s, d) && j.id == id;
      assert j in Spare(t, d);
    }
  }

  lemma EnqueueKeepsCopies(cfg: Config, s: State, step: Step, id: nat)
    requires HasCopy(s, id) && step.Enqueue?
    ensures HasCopy(Next(cfg, s, step), id)
  {
    var t := Next(cfg, s, step);
    StillThere(s, t, if step.id in s.issued then [] else [Job(step.id, step.task, 0)], id);
  }

  /** No consumer ever reclaims from itself. */
  ghost predicate Reclaims(s: State) {
    forall c :: Spares(PhaseOf(s, c), c)
  }

  predicate Spares(p: Phase, c: Consumer) {
    p.Suspecting? || p.Reclaiming? ==> p.victim != c
  }

  /** A step never makes the last live copy of a job disappear without disposing of the job. */
  lemma NextKeepsCopies(cfg: Config, s: State, step: Step, id: nat)
    requires HasCopy(s, id) && Reclaims(s)
    ensures Resolved(Next(cfg, s, step), id) || HasCopy(Next(cfg, s, step), id)
  {
    match step
    case Enqueue(_, _, _) => EnqueueKeepsCopies(cfg, s, step, id);
    case Move(c) =>
      if PhaseOf(s, c).Reclaiming? && PhaseOf(s, c).moved < RECLAIM_BOUND {
        MoveKeepsCopies(s, c, PhaseOf(s, c).victim, PhaseOf(s, c).moved, id);
      }
    case Take(c, heard) =>
      if PhaseOf(s, c) == Ready {
        if s.main == [] {
          StillThere(s, At(s, c, Idle), [], id);
        } else {
          TakeKeepsCopies(s, c, heard, id);
        }
      }
    case Succeed(c) => SucceedKeepsCopies(cfg, s, c, id);
    case Requeue(c, pushed) => RequeueKeepsCopies(cfg, s, c, pushed, id);
    case Remove(c, removed) => RemoveKeepsCopies(cfg, s, c, removed, id);
    case _ => QuietStepKeepsCopies(cfg, s, step, id);
  }

  lemma HistoryGrows(cfg: Config, s: State, step: Step)
    ensures var t := Next(cfg, s, step);
      && (forall id :: id in s.issued ==> id in t.issued && t.issued[id] == s.issued[id])
      && (forall id :: Runs(s, id) <= Runs(t, id))
      && s.accepted <= t.accepted
  {
  }

  lemma GoodStays(cfg: Config, s: State, step: Step, j: Job)
    requires Good(cfg, s, j)
    ensures Good(cfg, Next(cfg, s, step), j)
  {
    HistoryGrows(cfg, s, step);
  }

  lemma NextKeepsMain(cfg: Config, s: State, step: Step, j: Job)
    requires GoodEntries(cfg, s) && j in Next(cfg, s, step).main
    ensures Good(cfg, Next(cfg, s, step), j)
  {
    HistoryGrows(cfg, s, step);
    if j in s.main {
      GoodStays(cfg, s, step, j);
    } else if step.Requeue? {
      assert GoodPhase(cfg, s, PhaseOf(s, step.c));
    } else if step.Move? {
      var list := Entries(s, PhaseOf(s, step.c).victim);
      assert j == list[|list| - 1] && j in list;
      assert j in Entries(s, PhaseOf(s, step.c).victim);
      GoodStays(cfg, s, step, j);
    }
  }

  lemma NextKeepsList(cfg: Config, s: State, step: Step, c: Consumer, j: Job)
    requires GoodEntries(cfg, s) && j in Entries(Next(cfg, s, step), c)
    ensures Good(cfg, Next(cfg, s, step), j)
  {
    if j in Entries(s, c) {
      GoodStays(cfg, s, step, j);
    } else {
      assert step.Take? && j == s.main[|s.main| - 1] && j in s.main;
      GoodStays(cfg, s, step, j);
    }
  }

  predicate Acts(step: Step, c: Consumer) {
    !step.Enqueue? && !step.Expire? && step.c == c
  }

  lemma OthersStay(cfg: Config, s: State, step: Step, c: Consumer)
    requires !Acts(step, c)
    ensures PhaseOf(Next(cfg, s, step), c) == PhaseOf(s, c)
  {
  }

  lemma GoodPhaseStays(cfg: Config, s: State, step: Step, p: Phase)
    requires GoodPhase(cfg, s, p)
    ensures GoodPhase(cfg, Next(cfg, s, step), p)
  {
    HistoryGrows(cfg, s, step);
  }

  lemma NextKeepsPhase(cfg: Config, s: State, step: Step, c: Consumer)
    requires GoodEntries(cfg, s)
    ensures GoodPhase(cfg, Next(cfg, s, step), PhaseOf(Next(cfg, s, step), c))
  {
    var t := Next(cfg, s, step);
    assert GoodPhase(cfg, s, PhaseOf(s, c));
    GoodPhaseStays(cfg, s, step, PhaseOf(s, c));
    if !Acts(step, c) {
      OthersStay(cfg, s, step, c);
    } else if step.Take? && s.main != [] {
      var job := s.main[|s.main| - 1];
      assert job in s.main && Good(cfg, s, job);
      GoodStays(cfg, s, step, job);
    } else if PhaseOf(s, c).Running? || PhaseOf(s, c).Failing? {
      GoodStays(cfg, s, step, PhaseOf(s, c).job);
    }
  }

  lemma NextKeepsEntries(cfg: Config, s: State, step: Step)
    requires GoodEntries(cfg, s)
    ensures GoodEntries(cfg, Next(cfg, s, step))
  {
    var t := Next(cfg, s, step);
    forall j | j in t.main ensures Good(cfg, t, j) {
      NextKeepsMain(cfg, s, step, j);
    }
    forall c, j | j in Entries(t, c) ensures Good(cfg, t, j) {
      NextKeepsList(cfg, s, step, c, j);
    }
    forall c ensures GoodPhase(cfg, t, PhaseOf(t, c)) {
      NextKeepsPhase(cfg, s, step, c);
    }
  }

  lemma NextKeepsReclaims(cfg: Config, s: State, step: Step)
    requires Reclaims(s)
    ensures Reclaims(Next(cfg, s, step))
  {
    var t := Next(cfg, s, step);
    forall c ensures Spares(PhaseOf(t, c), c) {
      assert Spares(PhaseOf(s, c), c);
      if Acts(step, c) {
        ActorSparesItself(cfg, s, step, c);
      } else {
        OthersStay(cfg, s, step, c);
      }
    }
  }

  lemma ActorSparesItself(cfg: Config, s: State, step: Step, c: Consumer)
    requires Spares(PhaseOf(s, c), c) && Acts(step, c)
    ensures Spares(PhaseOf(Next(cfg, s, step), c), c)
  {
  }

  lemma NextKeepsHistory(cfg: Config, s: State, step: Step)
    requires GoodEntries(cfg, s) && GoodHistory(cfg, s)
    ensures GoodHistory(cfg, Next(cfg, s, step))
  {
    HistoryGrows(cfg, s, step);
    if step.Succeed? {
      assert GoodPhase(cfg, s, PhaseOf(s, step.c));
    } else if step.Requeue? {
      assert GoodPhase(cfg, s, PhaseOf(s, step.c));
    }
  }

  ghost predicate Inv(cfg: Config, s: State) {
    GoodEntries(cfg, s) && GoodHistory(cfg, s) && Kept(s) && Reclaims(s)
  }

  lemma DisposalsGrow(cfg: Config, s: State, step: Step, id: nat)
    requires Resolved(s, id)
    ensures Resolved(Next(cfg, s, step), id)
  {
  }

  lemma NextKeepsInv(cfg: Config, s: State, step: Step)
    requires Inv(cfg, s)
    ensures Inv(cfg, Next(cfg, s, step))
  {
    var t := Next(cfg, s, step);
    NextKeepsEntries(cfg, s, step);
    NextKeepsHistory(cfg, s, step);
    NextKeepsReclaims(cfg, s, step);
    forall id | id in t.accepted ensures Resolved(t, id) || HasCopy(t, id) {
      if id !in s.accepted {
        assert t.main[0].id == id;
      } else if Resolved(s, id) {
        DisposalsGrow(cfg, s, step, id);
      } else {
        NextKeepsCopies(cfg, s, step, id);
      }
    }
  }

  lemma {:induction false} RunKeepsInv(cfg: Config, steps: seq<Step>)
    ensures Inv(cfg, Run(cfg, EMPTY, steps))
    decreases |steps|
  {
    if steps != [] {
      RunKeepsInv(cfg, steps[..|steps| - 1]);
      NextKeepsInv(cfg, Run(cfg, EMPTY, steps[..|steps| - 1]), steps[|steps| - 1]);
    }
  }

  /**
    At-least-once: whatever crashes, expires or is reclaimed, and in whatever order, an
    accepted job of a task every consumer knows stays in some list until one of its runs
    succeeded, it was tried maxAttempts times, or pushing it back after a failure failed.
    Every stored copy still has a try left.
   */
  lemma NothingIsLost(cfg: Config, steps: seq<Step>, id: nat)
    ensures var s := Run(cfg, EMPTY, steps);
      && (id in s.accepted ==> id in s.issued)
      && (id in s.accepted && !Missing(cfg, s.issued[id]) ==>
            id in s.succeeded || id in s.exhausted || id in s.abandoned || HasCopy(s, id))
      && (id in s.exhausted ==> Runs(s, id) >= Limit(cfg))
      && (forall j :: j in s.main ==> j.attempts < Limit(cfg))
      && (forall c, j :: j in Entries(s, c) ==> j.attempts < Limit(cfg))
  {
    RunKeepsInv(cfg, steps);
    var s := Run(cfg, EMPTY, steps);
    forall c, j | j in Entries(s, c) ensures j.attempts < Limit(cfg) {
      assert Good(cfg, s, j);
    }
  }

  lemma OnlyFailedPushesAbandon(cfg: Config, s: State, step: Step)
    requires step.Requeue? ==> step.pushed
    ensures Next(cfg, s, step).abandoned == s.abandoned
  {
  }

  /** When every push back reaches Redis, no job is abandoned. */
  lemma {:induction false} ReliablePushesAbandonNothing(cfg: Config, steps: seq<Step>)
    requires forall i :: 0 <= i < |steps| ==> steps[i].Requeue? ==> steps[i].pushed
    ensures Run(cfg, EMPTY, steps).abandoned == {}
    decreases |steps|
  {
    if steps != [] {
      ReliablePushesAbandonNothing(cfg, steps[..|steps| - 1]);
      OnlyFailedPushesAbandon(cfg, Run(cfg, EMPTY, steps[..|steps| - 1]), steps[|steps| - 1]);
    }
  }

  lemma RunThen(cfg: Config, steps: seq<Step>, step: Step)
    ensures Run(cfg, EMPTY, steps + [step]) == Next(cfg, Run(cfg, EMPTY, steps), step)
  {
    assert (steps + [step])[..|steps|] == steps;
  }

  /** A failing push back is the one list operation that loses a job: the entry is removed all the same. */
  lemma FailedPushLosesTheJob(cfg: Config, id: nat, task: Task, c: Consumer)
    requires cfg.knows(c, task) && 1 < cfg.maxAttempts
    ensures exists steps :: var s := Run(cfg, EMPTY, steps);
      && id in s.accepted && Runs(s, id) == 1 && !HasCopy(s, id)
      && id !in s.succeeded && id !in s.exhausted && id !in s.unknown
  {
    var taken := [Enqueue(id, task, true)] + [Beat(c)] + [Take(c, true)];
    var lost := taken + [Fail(c)] + [Requeue(c, false)] + [Remove(c, true)];
    RunThen(cfg, [], Enqueue(id, task, true));
    RunThen(cfg, [Enqueue(id, task, true)], Beat(c));
    RunThen(cfg, [Enqueue(id, task, true)] + [Beat(c)], Take(c, true));
    var s := Run(cfg, EMPTY, taken);
    assert PhaseOf(s, c) == Running(Job(id, task, 0)) && s.main == [] && Entries(s, c) == [Job(id, task, 0)];
    assert s.lists.Keys == {c};
    RunThen(cfg, taken, Fail(c));
    RunThen(cfg, taken + [Fail(c)], Requeue(c, false));
    RunThen(cfg, taken + [Fail(c)] + [Requeue(c, false)], Remove(c, true));
    var t := Run(cfg, EMPTY, lost);
    assert t.main == [] && Entries(t, c) == [];
    assert forall d :: Spare(t, d) == [];
  }

  // ---- Reclaiming -------------------------------------------------------------------

  /** The consumer moves n entries without interference. */
  function Moved(cfg: Config, s: State, c: Consumer, n: nat): State {
    if n == 0 then s else Next(cfg, Moved(cfg, s, c, n - 1), Move(c))
  }

  lemma MoveOnce(cfg: Config, s: State, c: Consumer, victim: Consumer, moved: nat, list: seq<Job>)
    requires PhaseOf(s, c) == Reclaiming(victim, moved) && moved < RECLAIM_BOUND
    requires Entries(s, victim) == list && list != []
    ensures var t := Next(cfg, s, Move(c));
      && PhaseOf(t, c) == Reclaiming(victim, moved + 1)
      && Entries(t, victim) == list[..|list| - 1] && t.main == [list[|list| - 1]] + s.main
  {
  }

  /** n entries of the victim's list are in front of the main list, in their order. */
  ghost predicate HaveMoved(s: State, t: State, c: Consumer, victim: Consumer, n: nat) {
    var list := Entries(s, victim);
    && PhaseOf(t, c) == Reclaiming(victim, n) && n <= |list|
    && Entries(t, victim) == list[..|list| - n] && t.main == list[|list| - n..] + s.main
  }

  lemma MoveOneMore(cfg: Config, s: State, t: State, c: Consumer, victim: Consumer, n: nat)
    requires HaveMoved(s, t, c, victim, n) && n < |Entries(s, victim)| && n < RECLAIM_BOUND
    ensures HaveMoved(s, Next(cfg, t, Move(c)), c, victim, n + 1)
  {
    var list := Entries(s, victim);
    var left := list[..|list| - n];
    MoveOnce(cfg, t, c, victim, n, left);
    assert left[..|left| - 1] == list[..|list| - (n + 1)];
    assert list[|list| - (n + 1)..] == [left[|left| - 1]] + list[|list| - n..];
  }

  lemma {:induction false} MovesTakeFromTheEnd(cfg: Config, s: State, c: Consumer, victim: Consumer, n: nat)
    requires PhaseOf(s, c) == Reclaiming(victim, 0) && n <= |Entries(s, victim)| && n <= RECLAIM_BOUND
    ensures HaveMoved(s, Moved(cfg, s, c, n), c, victim, n)
  {
    if n > 0 {
      MovesTakeFromTheEnd(cfg, s, c, victim, n - 1);
      MoveOneMore(cfg, s, Moved(cfg, s, c, n - 1), c, victim, n - 1);
    } else {
      assert Entries(s, victim)[..|Entries(s, victim)|] == Entries(s, victim);
    }
  }

  /** Without interference, a whole list of at most RECLAIM_BOUND entries comes back in its order. */
  lemma OrphansComeBack(cfg: Config, s: State, c: Consumer, victim: Consumer)
    requires PhaseOf(s, c) == Ready && c != victim && victim !in s.alive && 0 < |Entries(s, victim)| <= RECLAIM_BOUND
    ensures var checked := Next(cfg, Next(cfg, s, Scan(c, victim)), Check(c));
      var t := Moved(cfg, checked, c, |Entries(s, victim)|);
      t.main == Entries(s, victim) + s.main && Entries(t, victim) == []
  {
    var checked := Next(cfg, Next(cfg, s, Scan(c, victim)), Check(c));
    assert Entries(checked, victim) == Entries(s, victim) && checked.main == s.main;
    assert PhaseOf(checked, c) == Reclaiming(victim, 0);
    MovesTakeFromTheEnd(cfg, checked, c, victim, |Entries(s, victim)|);
    assert Entries(s, victim)[0..] == Entries(s, victim);
  }

  predicate Fails(cfg: Config, c: Consumer, job: Job, raises: bool) {
    raises && cfg.knows(c, job.task)
  }

  /** A consumer ends the job it is running, when nobody else acts: its outcome, then the removal. */
  function Ended(cfg: Config, s: State, c: Consumer, job: Job, raises: bool, pushed: bool, removed: bool): State {
    var settled := if Fails(cfg, c, job, raises) then Next(cfg, Next(cfg, s, Fail(c)), Requeue(c, pushed)) else Next(cfg, s, Succeed(c));
    Next(cfg, settled, Remove(c, removed))
  }

  /** What an undisturbed consumer does with the oldest job: it leaves the queue, or goes to its front with one more attempt. */
  lemma UndisturbedRun(cfg: Config, s: State, c: Consumer, raises: bool)
    requires PhaseOf(s, c) == Ready && s.main != [] && Entries(s, c) == []
    ensures var job := s.main[|s.main| - 1];
      var fails := Fails(cfg, c, job, raises);
      var ran := Next(cfg, s, Take(c, true));
      var t := Ended(cfg, ran, c, job, raises, true, true);
      && PhaseOf(ran, c) == Running(job) && Runs(t, job.id) == Runs(s, job.id) + 1
      && PhaseOf(t, c) == Idle && Entries(t, c) == []
      && t.main == (if fails && job.attempts + 1 < cfg.maxAttempts then [job.(attempts := job.attempts + 1)] else [])
                   + s.main[..|s.main| - 1]
      && (!fails && cfg.knows(c, job.task) ==> job.id in t.succeeded)
      && (fails && job.attempts + 1 >= cfg.maxAttempts ==> job.id in t.exhausted)
  {
  }

  // ---- Without mishaps ---------------------------------------------------------------

  /** No crash, no expiry, and no Redis call whose effect and answer disagree. */
  predicate Calm(step: Step) {
    match step
    case Crash(_) => false
    case Expire(_) => false
    case Take(_, heard) => heard
    case Requeue(_, pushed) => pushed
    case Remove(_, removed) => removed
    case _ => true
  }

  predicate Active(p: Phase) {
    p.Running? || p.Failing?
  }

  /** A consumer's list holds exactly the job it is busy with, and its heartbeat is set. */
  ghost predicate CalmConsumer(s: State, c: Consumer) {
    var p := PhaseOf(s, c);
    && Entries(s, c) == (if Active(p) || p.Finishing? then [p.job] else [])
    && (p != Idle && p != Gone ==> c in s.alive)
    && (p.Suspecting? ==> p.victim in s.alive || PhaseOf(s, p.victim) == Gone)
    && (p.Reclaiming? ==> PhaseOf(s, p.victim) == Gone)
  }

  ghost predicate CalmConsumers(s: State) {
    forall c :: CalmConsumer(s, c)
  }

  ghost predicate OneCopy(s: State) {
    && (forall i, k :: 0 <= i < k < |s.main| ==> s.main[i].id != s.main[k].id)
    && (forall c :: Active(PhaseOf(s, c)) ==> !InMain(s, PhaseOf(s, c).job.id))
    && (forall c, d :: c != d && Active(PhaseOf(s, c)) && Active(PhaseOf(s, d)) ==>
          PhaseOf(s, c).job.id != PhaseOf(s, d).job.id)
  }

  ghost predicate CalmRuns(cfg: Config, s: State) {
    && (forall i :: 0 <= i < |s.main| ==> Runs(s, s.main[i].id) == s.main[i].attempts)
    && (forall c :: Active(PhaseOf(s, c)) ==> Runs(s, PhaseOf(s, c).job.id) == PhaseOf(s, c).job.attempts + 1)
    && (forall id :: 0 < Runs(s, id) ==> id in s.issued && Runs(s, id) <= Limit(cfg))
  }

  lemma CalmActor(cfg: Config, s: State, step: Step, c: Consumer)
    requires Calm(step) && CalmConsumers(s) && Reclaims(s) && Acts(step, c)
    ensures CalmConsumer(Next(cfg, s, step), c)
  {
    assert CalmConsumer(s, c);
    if step.Scan? {
      assert CalmConsumer(s, step.victim);
    } else if PhaseOf(s, c).Reclaiming? || PhaseOf(s, c).Suspecting? {
      assert CalmConsumer(s, PhaseOf(s, c).victim);
    }
  }

  lemma GoneStays(cfg: Config, s: State, step: Step, c: Consumer)
    requires Calm(step) && (c in s.alive || PhaseOf(s, c) == Gone)
    ensures c in Next(cfg, s, step).alive || PhaseOf(Next(cfg, s, step), c) == Gone
    ensures PhaseOf(s, c) == Gone ==> PhaseOf(Next(cfg, s, step), c) == Gone
  {
    if !Acts(step, c) {
      OthersStay(cfg, s, step, c);
    }
  }

  lemma CalmOther(cfg: Config, s: State, step: Step, c: Consumer)
    requires Calm(step) && CalmConsumers(s) && Reclaims(s) && !Acts(step, c)
    ensures CalmConsumer(Next(cfg, s, step), c)
  {
    assert CalmConsumer(s, c);
    OthersStay(cfg, s, step, c);
    var p := PhaseOf(s, c);
    if p.Suspecting? || p.Reclaiming? {
      GoneStays(cfg, s, step, p.victim);
    }
    if step.Move? && PhaseOf(s, step.c).Reclaiming? {
      assert CalmConsumer(s, step.c) && CalmConsumer(s, PhaseOf(s, step.c).victim);
    }
  }

  lemma CalmKeepsConsumers(cfg: Config, s: State, step: Step)
    requires Calm(step) && CalmConsumers(s) && Reclaims(s)
    ensures CalmConsumers(Next(cfg, s, step))
  {
    forall c ensures CalmConsumer(Next(cfg, s, step), c) {
      if Acts(step, c) {
        CalmActor(cfg, s, step, c);
      } else {
        CalmOther(cfg, s, step, c);
      }
    }
  }

  /** Nothing enters the main list, no consumer starts a job, and no run begins. */
  ghost predicate StartsNothing(s: State, t: State) {
    && t.main == s.main && t.runs == s.runs && t.issued == s.issued
    && forall c :: Active(PhaseOf(t, c)) ==> Active(PhaseOf(s, c)) && PhaseOf(t, c).job == PhaseOf(s, c).job
  }

  /** Steps other than enqueueing, taking and pushing back; reclaiming finds nothing to move. */
  lemma CalmStartsNothing(cfg: Config, s: State, step: Step)
    requires Calm(step) && CalmConsumers(s) && !step.Enqueue? && !step.Take? && !step.Requeue?
    ensures StartsNothing(s, Next(cfg, s, step))
  {
    var t := Next(cfg, s, step);
    CalmLeavesMain(cfg, s, step);
    forall c | Active(PhaseOf(t, c)) ensures Active(PhaseOf(s, c)) && PhaseOf(t, c).job == PhaseOf(s, c).job {
      if Acts(step, c) {
        ActorStartsNothing(cfg, s, step, c);
      } else {
        OthersStay(cfg, s, step, c);
      }
    }
  }

  lemma CalmLeavesMain(cfg: Config, s: State, step: Step)
    requires Calm(step) && CalmConsumers(s) && !step.Enqueue? && !step.Take? && !step.Requeue?
    ensures var t := Next(cfg, s, step); t.main == s.main && t.runs == s.runs && t.issued == s.issued
  {
    if step.Move? && PhaseOf(s, step.c).Reclaiming? {
      assert CalmConsumer(s, step.c) && CalmConsumer(s, PhaseOf(s, step.c).victim);
    }
  }

  lemma ActorStartsNothing(cfg: Config, s: State, step: Step, c: Consumer)
    requires Acts(step, c) && !step.Take? && Active(PhaseOf(Next(cfg, s, step), c))
    ensures Active(PhaseOf(s, c)) && PhaseOf(Next(cfg, s, step), c).job == PhaseOf(s, c).job
  {
  }

  lemma NothingStarted(cfg: Config, s: State, t: State)
    requires OneCopy(s) && CalmRuns(cfg, s) && StartsNothing(s, t)
    ensures OneCopy(t) && CalmRuns(cfg, t)
  {
    assert forall id :: Runs(t, id) == Runs(s, id) && (InMain(t, id) ==> InMain(s, id));
  }

  lemma CalmEnqueue(cfg: Config, s: State, step: Step)
    requires step.Enqueue? && OneCopy(s) && CalmRuns(cfg, s) && GoodEntries(cfg, s)
    ensures OneCopy(Next(cfg, s, step)) && CalmRuns(cfg, Next(cfg, s, step))
  {
    var t := Next(cfg, s, step);
    if t != s {
      assert forall id :: Runs(t, id) == Runs(s, id);
      forall c ensures PhaseOf(t, c) == PhaseOf(s, c) {
      }
      forall i | 0 <= i < |s.main| ensures s.main[i].id != step.id && t.main[i + 1] == s.main[i] {
        assert s.main[i] in s.main && Good(cfg, s, s.main[i]);
      }
      forall c | Active(PhaseOf(s, c)) ensures !InMain(t, PhaseOf(s, c).job.id) && PhaseOf(s, c).job.id in s.issued {
        assert GoodPhase(cfg, s, PhaseOf(s, c));
        assert !InMain(s, PhaseOf(s, c).job.id);
      }
    }
  }

  lemma CalmTake(cfg: Config, s: State, step: Step)
    requires step.Take? && step.heard && OneCopy(s) && CalmRuns(cfg, s) && GoodEntries(cfg, s)
    ensures OneCopy(Next(cfg, s, step)) && CalmRuns(cfg, Next(cfg, s, step))
  {
    var t := Next(cfg, s, step);
    if PhaseOf(s, step.c) == Ready {
      if s.main == [] {
        NothingStarted(cfg, s, t);
      } else {
        var n := |s.main| - 1;
        var job := s.main[n];
        assert job in s.main && Good(cfg, s, job);
        forall c | c != step.c ensures PhaseOf(t, c) == PhaseOf(s, c) {
        }
        forall c | Active(PhaseOf(t, c)) ensures !InMain(t, PhaseOf(t, c).job.id) {
          if c != step.c {
            assert !InMain(s, PhaseOf(s, c).job.id);
          }
        }
        forall c | c != step.c && Active(PhaseOf(t, c)) ensures PhaseOf(t, c).job.id != job.id {
          assert !InMain(s, PhaseOf(s, c).job.id);
        }
      }
    }
  }

  /** Pushing a job back when its consumer is the only one busy with it keeps one copy of every job. */
  lemma PushedBack(cfg: Config, s: State, t: State, c: Consumer, job: Job)
    requires OneCopy(s) && CalmRuns(cfg, s) && Active(PhaseOf(s, c)) && PhaseOf(s, c).job == job
    requires t.main == [job.(attempts := job.attempts + 1)] + s.main && t.runs == s.runs && t.issued == s.issued
    requires !Active(PhaseOf(t, c)) && forall d :: d != c ==> PhaseOf(t, d) == PhaseOf(s, d)
    ensures OneCopy(t) && CalmRuns(cfg, t)
  {
    assert !InMain(s, job.id) && forall id :: Runs(t, id) == Runs(s, id);
    forall i, k | 0 <= i < k < |t.main| ensures t.main[i].id != t.main[k].id {
      assert t.main[k] == s.main[k - 1];
      assert i == 0 || t.main[i] == s.main[i - 1];
    }
    forall i | 0 <= i < |t.main| ensures Runs(t, t.main[i].id) == t.main[i].attempts {
      assert i == 0 || t.main[i] == s.main[i - 1];
    }
    forall d | Active(PhaseOf(t, d))
      ensures !InMain(t, PhaseOf(t, d).job.id) && Runs(t, PhaseOf(t, d).job.id) == PhaseOf(t, d).job.attempts + 1
    {
      assert d != c && PhaseOf(t, d) == PhaseOf(s, d) && PhaseOf(s, d).job.id != job.id;
      NotInLonger(s, t, PhaseOf(s, d).job.id);
    }
  }

  lemma NotInLonger(s: State, t: State, id: nat)
    requires !InMain(s, id) && t.main != [] && t.main[1..] == s.main && t.main[0].id != id
    ensures !InMain(t, id)
  {
    forall i | 0 <= i < |t.main| ensures t.main[i].id != id {
      assert i == 0 || t.main[i] == s.main[i - 1];
    }
  }

  lemma CalmRequeue(cfg: Config, s: State, step: Step)
    requires step.Requeue? && step.pushed && OneCopy(s) && CalmRuns(cfg, s)
    ensures OneCopy(Next(cfg, s, step)) && CalmRuns(cfg, Next(cfg, s, step))
  {
    var t := Next(cfg, s, step);
    var c := step.c;
    if PhaseOf(s, c).Failing? {
      assert PhaseOf(t, c).Finishing?;
      forall d | d != c ensures PhaseOf(t, d) == PhaseOf(s, d) {
      }
      if PhaseOf(s, c).job.attempts + 1 >= cfg.maxAttempts {
        NothingStarted(cfg, s, t);
      } else {
        PushedBack(cfg, s, t, c, PhaseOf(s, c).job);
      }
    }
  }

  ghost predicate CalmInv(cfg: Config, s: State) {
    Inv(cfg, s) && CalmConsumers(s) && OneCopy(s) && CalmRuns(cfg, s)
  }

  lemma CalmKeepsInv(cfg: Config, s: State, step: Step)
    requires Calm(step) && CalmInv(cfg, s)
    ensures CalmInv(cfg, Next(cfg, s, step))
  {
    NextKeepsInv(cfg, s, step);
    CalmKeepsConsumers(cfg, s, step);
    if step.Enqueue? {
      CalmEnqueue(cfg, s, step);
    } else if step.Take? {
      CalmTake(cfg, s, step);
    } else if step.Requeue? {
      CalmRequeue(cfg, s, step);
    } else {
      CalmStartsNothing(cfg, s, step);
      NothingStarted(cfg, s, Next(cfg, s, step));
    }
  }

  lemma {:induction false} CalmRunKeepsInv(cfg: Config, steps: seq<Step>)
    requires forall i :: 0 <= i < |steps| ==> Calm(steps[i])
    ensures CalmInv(cfg, Run(cfg, EMPTY, steps))
    decreases |steps|
  {
    if steps != [] {
      CalmRunKeepsInv(cfg, steps[..|steps| - 1]);
      CalmKeepsInv(cfg, Run(cfg, EMPTY, steps[..|steps| - 1]), steps[|steps| - 1]);
    }
  }

  /** Without crashes, expiries and failing Redis calls a job exists once and runs at most maxAttempts times. */
  lemma CalmRunsAreBounded(cfg: Config, steps: seq<Step>, id: nat)
    requires forall i :: 0 <= i < |steps| ==> Calm(steps[i])
    ensures Runs(Run(cfg, EMPTY, steps), id) <= Limit(cfg) && OneCopy(Run(cfg, EMPTY, steps))
  {
    CalmRunKeepsInv(cfg, steps);
  }

  // ---- The loop a consumer thread runs --------------------------------------------------

  /** What happens around one iteration: the other consumers' steps, and the outcomes of its calls. */
  datatype Weather = Weather(
    others: nat -> seq<Step>,
    victims: seq<Consumer>,
    heard: bool,
    raises: bool,
    pushed: bool,
    removed: bool)

  ghost predicate LeavesAlone(w: Weather, me: Consumer) {
    && (forall k, i :: 0 <= i < |w.others(k)| ==> !Acts(w.others(k)[i], me))
    && me !in w.victims
  }

  /** Disposals are never taken back, and runs are counted for good. */
  ghost predicate Grows(s: State, t: State) {
    && s.succeeded <= t.succeeded && s.exhausted <= t.exhausted && s.abandoned <= t.abandoned && s.unknown <= t.unknown
    && forall id :: Runs(s, id) <= Runs(t, id)
  }

  lemma RecordsGrow(cfg: Config, s: State, step: Step)
    ensures Grows(s, Next(cfg, s, step))
  {
    HistoryGrows(cfg, s, step);
  }

  /** The job is disposed of or has a copy that will be taken or reclaimed. */
  ghost predicate Safeguarded(s: State, id: nat) {
    Resolved(s, id) || HasCopy(s, id)
  }

  ghost predicate KeepsJobs(s: State, t: State) {
    forall id :: Safeguarded(s, id) ==> Safeguarded(t, id)
  }

  /** The job stands behind all others in the main list, with one more attempt. */
  predicate InFront(s: State, job: Job) {
    s.main != [] && s.main[0] == job.(attempts := job.attempts + 1)
  }

  /** Among the states from an index on is one with the job pushed back. */
  ghost predicate WasPushedBack(states: seq<State>, from: nat, job: Job) {
    exists i :: from <= i < |states| && InFront(states[i], job)
  }

  ghost predicate NoOthers(others: nat -> seq<Step>) {
    forall k :: others(k) == []
  }

  function AtMostBound(n: nat): nat {
    if n <= RECLAIM_BOUND then n else RECLAIM_BOUND
  }

  /** The last n entries of the victim's list stand in front of the main list in their order; nothing else moved. */
  ghost predicate CameBack(s: State, t: State, victim: Consumer, n: nat) {
    var list := Entries(s, victim);
    && n <= |list| && t.main == list[|list| - n..] + s.main && Entries(t, victim) == list[..|list| - n]
    && (forall c :: c != victim ==> Entries(t, c) == Entries(s, c)) && t.alive == s.alive && t.runs == s.runs
  }

  /** After some moves: the list was found empty, or that many entries came back. */
  ghost predicate MovedSoFar(s: State, t: State, c: Consumer, victim: Consumer, moved: nat) {
    var n := |Entries(s, victim)|;
    if PhaseOf(t, c) == Ready then n < RECLAIM_BOUND && CameBack(s, t, victim, n)
    else PhaseOf(t, c) == Reclaiming(victim, moved) && CameBack(s, t, victim, moved)
  }

  /** A move brings one entry more, or finds the list empty. */
  lemma MoveBringsBack(cfg: Config, s: State, t: State, c: Consumer, victim: Consumer, n: nat)
    requires PhaseOf(t, c) == Reclaiming(victim, n) && n < RECLAIM_BOUND && CameBack(s, t, victim, n)
    ensures var u := Next(cfg, t, Move(c)); var list := Entries(s, victim);
      if n == |list| then PhaseOf(u, c) == Ready && CameBack(s, u, victim, n)
      else PhaseOf(u, c) == Reclaiming(victim, n + 1) && CameBack(s, u, victim, n + 1)
  {
    var list := Entries(s, victim);
    if n < |list| {
      var left := list[..|list| - n];
      MoveOnce(cfg, t, c, victim, n, left);
      assert left[..|left| - 1] == list[..|list| - (n + 1)];
      assert list[|list| - (n + 1)..] == [left[|left| - 1]] + list[|list| - n..];
    }
  }

  /** The lists of the victims without a heartbeat are emptied up to the bound; no other list changes. */
  ghost predicate Reclaimed(s: State, t: State, victims: seq<Consumer>) {
    && t.alive == s.alive && t.runs == s.runs
    && (forall c :: c !in victims || c in s.alive ==> Entries(t, c) == Entries(s, c))
    && (forall c :: c in victims && c !in s.alive && |Entries(s, c)| <= RECLAIM_BOUND ==> Entries(t, c) == [])
    && |s.main| <= |t.main| && t.main[|t.main| - |s.main|..] == s.main
  }

  lemma ReclaimedOneMore(s: State, t: State, u: State, victims: seq<Consumer>, v: Consumer)
    requires Reclaimed(s, t, victims)
    requires CameBack(t, u, v, if v in t.alive then 0 else AtMostBound(|Entries(t, v)|))
    ensures Reclaimed(s, u, victims + [v])
  {
    forall c ensures c in victims + [v] <==> c in victims || c == v {
    }
    assert v in s.alive ==> Entries(u, v) == Entries(t, v) == Entries(s, v) by {
      if v in s.alive {
        assert Entries(t, v)[..|Entries(t, v)|] == Entries(t, v);
      }
    }
    assert u.main[|u.main| - |t.main|..] == t.main;
    assert u.main[|u.main| - |s.main|..] == u.main[|u.main| - |t.main|..][|t.main| - |s.main|..];
  }

  lemma StillPushedBack(states: seq<State>, more: seq<State>, from: nat, job: Job)
    requires WasPushedBack(states, from, job) && states <= more
    ensures WasPushedBack(more, from, job)
  {
    var i :| from <= i < |states| && InFront(states[i], job);
    assert more[i] == states[i];
  }

  ghost predicate Linked(cfg: Config, steps: seq<Step>, states: seq<State>, i: nat)
    requires i < |steps| && i + 1 < |states|
  {
    states[i + 1] == Next(cfg, states[i], steps[i])
  }

  /** The states passed through along the steps. */
  ghost predicate Behaviour(cfg: Config, steps: seq<Step>, states: seq<State>) {
    && |states| == |steps| + 1 && states[0] == EMPTY
    && forall i :: 0 <= i < |steps| ==> Linked(cfg, steps, states, i)
  }

  lemma {:induction false} BehaviourRuns(cfg: Config, steps: seq<Step>, states: seq<State>)
    requires Behaviour(cfg, steps, states)
    ensures states[|steps|] == Run(cfg, EMPTY, steps)
    decreases |steps|
  {
    if steps != [] {
      var n := |steps| - 1;
      var shorter, passed := steps[..n], states[..n + 1];
      forall i | 0 <= i < n ensures Linked(cfg, shorter, passed, i) {
        assert Linked(cfg, steps, states, i);
      }
      BehaviourRuns(cfg, shorter, passed);
      assert Linked(cfg, steps, states, n);
    }
  }

  lemma BehaviourExtends(cfg: Config, steps: seq<Step>, states: seq<State>, step: Step, next: State)
    requires Behaviour(cfg, steps, states) && next == Next(cfg, states[|steps|], step)
    ensures Behaviour(cfg, steps + [step], states + [next])
  {
    forall i | 0 <= i < |steps| + 1 ensures Linked(cfg, steps + [step], states + [next], i) {
      if i < |steps| {
        assert Linked(cfg, steps, states, i);
      }
    }
  }

  lemma BehaviourIsSafe(cfg: Config, steps: seq<Step>, states: seq<State>)
    requires Behaviour(cfg, steps, states)
    ensures Inv(cfg, states[|steps|])
  {
    BehaviourRuns(cfg, steps, states);
    RunKeepsInv(cfg, steps);
  }

  class Service {
    const cfg: Config
    var s: State
    ghost var trace: seq<Step>
    ghost var states: seq<State>

    constructor (cfg: Config)
      ensures Valid() && this.cfg == cfg && s == EMPTY
    {
      this.cfg := cfg;
      s, trace, states := EMPTY, [], [EMPTY];
    }

    ghost predicate Valid()
      reads this
    {
      Behaviour(cfg, trace, states) && s == states[|trace|]
    }

    /** One atomic step. */
    method Do(step: Step)
      requires Valid()
      modifies this
      ensures Valid() && s == Next(cfg, old(s), step) && Grows(old(s), s) && KeepsJobs(old(s), s)
      ensures trace == old(trace) + [step] && states == old(states) + [s]
    {
      BehaviourIsSafe(cfg, trace, states);
      forall id | HasCopy(s, id) ensures Safeguarded(Next(cfg, s, step), id) {
        NextKeepsCopies(cfg, s, step, id);
      }
      RecordsGrow(cfg, s, step);
      BehaviourExtends(cfg, trace, states, step, Next(cfg, s, step));
      s := Next(cfg, s, step);
      trace, states := trace + [step], states + [s];
    }

    /** What the rest of the world does meanwhile. */
    method Others(steps: seq<Step>, me: Consumer)
      requires Valid() && forall i :: 0 <= i < |steps| ==> !Acts(steps[i], me)
      modifies this
      ensures Valid() && Grows(old(s), s) && KeepsJobs(old(s), s) && trace == old(trace) + steps
      ensures old(states) <= states && (steps == [] ==> s == old(s))
      ensures PhaseOf(s, me) == old(PhaseOf(s, me))
    {
      for i := 0 to |steps|
        invariant Valid() && Grows(old(s), s) && KeepsJobs(old(s), s) && trace == old(trace) + steps[..i]
        invariant old(states) <= states && (i == 0 ==> s == old(s))
        invariant PhaseOf(s, me) == old(PhaseOf(s, me))
      {
        OthersStay(cfg, s, steps[i], me);
        Do(steps[i]);
      }
      assert steps[..|steps|] == steps;
    }

    /** A producer's push; a task without a registered name, or a missing Redis, is left to the thread pool. */
    method TryEnqueue(id: nat, task: Task, usable: bool, reaches: bool, answered: bool) returns (queued: bool)
      requires Valid() && id !in s.issued
      modifies this
      ensures Valid() && (queued <==> usable && reaches && answered)
      ensures queued <==> id in s.accepted && id !in old(s.accepted)
      ensures s.main == if usable && reaches then [Job(id, task, 0)] + old(s.main) else old(s.main)
      ensures Inv(cfg, s)
    {
      BehaviourIsSafe(cfg, trace, states);
      queued := usable && reaches && answered;
      if usable && reaches {
        Do(Enqueue(id, task, answered));
      }
      BehaviourIsSafe(cfg, trace, states);
    }

    /** One move of the loop. */
    method MoveNext(me: Consumer, victim: Consumer, moved: nat, others: nat -> seq<Step>, ghost start: State)
      requires Valid() && PhaseOf(s, me) == Reclaiming(victim, moved) && me != victim && moved < RECLAIM_BOUND
      requires forall k, i :: 0 <= i < |others(k)| ==> !Acts(others(k)[i], me)
      requires NoOthers(others) ==> MovedSoFar(start, s, me, victim, moved)
      modifies this
      ensures Valid() && (PhaseOf(s, me) == Ready || PhaseOf(s, me) == Reclaiming(victim, moved + 1))
      ensures Grows(old(s), s) && old(states) <= states
      ensures NoOthers(others) ==> MovedSoFar(start, s, me, victim, moved + 1)
    {
      Others(others(1), me);
      if NoOthers(others) {
        MoveBringsBack(cfg, start, s, me, victim, moved);
      }
      Do(Move(me));
    }

    /** The loop of moves: it ends with an empty list or at the bound. */
    method MoveBack(me: Consumer, victim: Consumer, others: nat -> seq<Step>)
      requires Valid() && PhaseOf(s, me) == Reclaiming(victim, 0) && me != victim
      requires forall k, i :: 0 <= i < |others(k)| ==> !Acts(others(k)[i], me)
      modifies this
      ensures Valid() && PhaseOf(s, me) == Ready && Grows(old(s), s) && old(states) <= states
      ensures NoOthers(others) ==> CameBack(old(s), s, victim, AtMostBound(|Entries(old(s), victim)|))
    {
      for moved := 0 to RECLAIM_BOUND
        invariant Valid() && (PhaseOf(s, me) == Ready || PhaseOf(s, me) == Reclaiming(victim, moved))
        invariant Grows(old(s), s) && old(states) <= states
        invariant NoOthers(others) ==> MovedSoFar(old(s), s, me, victim, moved)
      {
        if PhaseOf(s, me) == Ready {
          return;
        }
        MoveNext(me, victim, moved, others, old(s));
      }
      if PhaseOf(s, me) != Ready {
        ghost var before := s;
        Do(EndReclaim(me));
        assert NoOthers(others) ==> CameBack(old(s), before, victim, RECLAIM_BOUND);
      }
    }

    /** Move back what a consumer without a heartbeat holds, at most RECLAIM_BOUND entries. */
    method Reclaim(me: Consumer, victim: Consumer, others: nat -> seq<Step>)
      requires Valid() && PhaseOf(s, me) == Ready && me != victim
      requires forall k, i :: 0 <= i < |others(k)| ==> !Acts(others(k)[i], me)
      modifies this
      ensures Valid() && PhaseOf(s, me) == Ready && Grows(old(s), s) && old(states) <= states
      ensures NoOthers(others) ==>
        CameBack(old(s), s, victim, if victim in old(s).alive then 0 else AtMostBound(|Entries(old(s), victim)|))
    {
      Do(Scan(me, victim));
      if PhaseOf(s, me) == Ready {
        return;
      }
      Others(others(0), me);
      Do(Check(me));
      if PhaseOf(s, me) == Ready {
        return;
      }
      ghost var before := s;
      MoveBack(me, victim, others);
    }

    /** The next of the lists. */
    method ReclaimNext(me: Consumer, victim: Consumer, others: nat -> seq<Step>, ghost start: State, ghost done: seq<Consumer>)
      requires Valid() && PhaseOf(s, me) == Ready && me != victim
      requires forall k, i :: 0 <= i < |others(k)| ==> !Acts(others(k)[i], me)
      requires NoOthers(others) ==> Reclaimed(start, s, done)
      modifies this
      ensures Valid() && PhaseOf(s, me) == Ready && Grows(old(s), s) && old(states) <= states
      ensures NoOthers(others) ==> Reclaimed(start, s, done + [victim])
    {
      ghost var before := s;
      Reclaim(me, victim, others);
      if NoOthers(others) {
        ReclaimedOneMore(start, before, s, done, victim);
      }
    }

    /**
      Go through the other consumers' lists: undisturbed, those without a heartbeat are moved
      to the front of the main list, each up to the bound, and no other list changes.
     */
    method ReclaimOrphans(me: Consumer, victims: seq<Consumer>, others: nat -> seq<Step>)
      requires Valid() && PhaseOf(s, me) == Ready && me !in victims
      requires forall k, i :: 0 <= i < |others(k)| ==> !Acts(others(k)[i], me)
      modifies this
      ensures Valid() && PhaseOf(s, me) == Ready && Grows(old(s), s) && old(states) <= states
      ensures NoOthers(others) ==> Reclaimed(old(s), s, victims)
      ensures victims == [] ==> s == old(s)
    {
      for v := 0 to |victims|
        invariant Valid() && PhaseOf(s, me) == Ready && Grows(old(s), s) && old(states) <= states
        invariant NoOthers(others) ==> Reclaimed(old(s), s, victims[..v])
        invariant v == 0 ==> s == old(s)
      {
        ReclaimNext(me, victims[v], others, old(s), victims[..v]);
        assert victims[..v + 1] == victims[..v] + [victims[v]];
      }
      assert victims[..|victims|] == victims;
    }

    /** Push a failed job back in front of the main list with one more attempt, or give it up. */
    method PushBack(me: Consumer, pushed: bool, job: Job)
      requires Valid() && PhaseOf(s, me) == Failing(job)
      modifies this
      ensures Valid() && PhaseOf(s, me) == Finishing(job) && Grows(old(s), s) && Safeguarded(s, job.id)
      ensures job.attempts + 1 >= cfg.maxAttempts || !pushed ==> job.id in s.exhausted || job.id in s.abandoned
      ensures job.attempts + 1 < cfg.maxAttempts && pushed ==>
        s.main == [job.(attempts := job.attempts + 1)] + old(s.main) && s.lists == old(s.lists)
      ensures states == old(states) + [s] && s == Next(cfg, old(s), Requeue(me, pushed))
    {
      Do(Requeue(me, pushed));
      if s.main != old(s.main) {
        assert s.main[0].id == job.id;
      }
    }

    /** A failed job: pushed back or given up; others may take it at once. */
    method HandleFailure(me: Consumer, w: Weather, job: Job)
      requires Valid() && PhaseOf(s, me) == Failing(job) && LeavesAlone(w, me)
      modifies this
      ensures Valid() && PhaseOf(s, me) == Finishing(job) && Grows(old(s), s) && old(states) <= states
      ensures job.attempts + 1 >= cfg.maxAttempts || !w.pushed ==> job.id in s.exhausted || job.id in s.abandoned
      ensures Safeguarded(s, job.id)
      ensures job.attempts + 1 < cfg.maxAttempts && w.pushed ==> WasPushedBack(states, |old(states)|, job)
      ensures NoOthers(w.others) ==> s == Next(cfg, old(s), Requeue(me, w.pushed))
    {
      PushBack(me, w.pushed, job);
      ghost var at, back := |states| - 1, s;
      Others(w.others(3), me);
      assert states[at] == back;
    }

    /** What came of a job that was run. */
    ghost predicate Settled(me: Consumer, w: Weather, job: Job, from: nat)
      reads this
    {
      && (!(w.raises && cfg.knows(me, job.task)) ==> job.id in s.succeeded || job.id in s.unknown)
      && (w.raises && cfg.knows(me, job.task) && (job.attempts + 1 >= cfg.maxAttempts || !w.pushed) ==>
            job.id in s.exhausted || job.id in s.abandoned)
      && (w.raises && cfg.knows(me, job.task) && job.attempts + 1 < cfg.maxAttempts && w.pushed ==>
            WasPushedBack(states, from, job) && Safeguarded(s, job.id))
    }

    method Perform(me: Consumer, w: Weather, job: Job)
      requires Valid() && PhaseOf(s, me) == Running(job) && LeavesAlone(w, me)
      modifies this
      ensures Valid() && PhaseOf(s, me) == Finishing(job) && Grows(old(s), s) && old(states) <= states
      ensures Settled(me, w, job, |old(states)|)
      ensures NoOthers(w.others) ==> Next(cfg, s, Remove(me, w.removed)) == Ended(cfg, old(s), me, job, w.raises, w.pushed, w.removed)
    {
      if w.raises && cfg.knows(me, job.task) {
        Do(Fail(me));
        Others(w.others(2), me);
        HandleFailure(me, w, job);
      } else {
        Do(Succeed(me));
        Others(w.others(3), me);
      }
    }

    /** Remove the finished job from the own list, which takes nothing back. */
    method Tidy(me: Consumer, w: Weather, job: Job, ghost from: nat)
      requires Valid() && PhaseOf(s, me) == Finishing(job) && Settled(me, w, job, from)
      modifies this
      ensures Valid() && PhaseOf(s, me) == Idle && Grows(old(s), s) && old(states) <= states
      ensures Settled(me, w, job, from) && s == Next(cfg, old(s), Remove(me, w.removed))
    {
      ghost var before := states;
      Do(Remove(me, w.removed));
      if WasPushedBack(before, from, job) {
        StillPushedBack(before, states, from, job);
      }
    }

    /** Run the taken job, push it back if it failed, and remove it from the own list; it is not lost. */
    method Execute(me: Consumer, w: Weather, job: Job)
      requires Valid() && PhaseOf(s, me) == Running(job) && LeavesAlone(w, me)
      modifies this
      ensures Valid() && PhaseOf(s, me) == Idle && Grows(old(s), s) && old(states) <= states
      ensures Settled(me, w, job, |old(states)|)
      ensures NoOthers(w.others) ==> s == Ended(cfg, old(s), me, job, w.raises, w.pushed, w.removed)
    {
      ghost var from := |states|;
      Perform(me, w, job);
      Tidy(me, w, job, from);
    }

    /**
      One pass of the loop: beat, reclaim, take a job, run it, push it back if it failed, remove
      it. `at` is the state in which the main list is asked: its last job is run if the answer
      arrives, and without one nothing changes any more.
     */
    method Iteration(me: Consumer, w: Weather) returns (ran: Option<Job>, ghost at: State)
      requires Valid() && PhaseOf(s, me) == Idle && LeavesAlone(w, me)
      modifies this
      ensures Valid() && PhaseOf(s, me) == Idle && Inv(cfg, s) && Grows(old(s), s)
      ensures PhaseOf(at, me) == Ready && Grows(old(s), at) && Grows(at, s)
      ensures exists i :: |old(states)| <= i < |states| && states[i] == at
      ensures ran == if w.heard && at.main != [] then Some(at.main[|at.main| - 1]) else None
      ensures ran.Some? ==> Runs(s, ran.value.id) > Runs(at, ran.value.id) && Settled(me, w, ran.value, |old(states)|)
      ensures at.main == [] ==> s.main == [] && s.lists == at.lists
      ensures !w.heard && at.main != [] ==>
        s.main == at.main[..|at.main| - 1] && Entries(s, me) == [at.main[|at.main| - 1]] + Entries(at, me)
      ensures NoOthers(w.others) ==> me in at.alive && Reclaimed(Next(cfg, old(s), Beat(me)), at, w.victims)
      ensures NoOthers(w.others) && ran.Some? ==>
        s == Ended(cfg, Next(cfg, at, Take(me, true)), me, ran.value, w.raises, w.pushed, w.removed)
    {
      Do(Beat(me));
      ReclaimOrphans(me, w.victims, w.others);
      Others(w.others(0), me);
      at := s;
      ghost var k := |states| - 1;
      assert states[k] == at;
      ran := TakeAndRun(me, w);
      assert states[k] == at;
      BehaviourIsSafe(cfg, trace, states);
    }

    /** Take the oldest job, and run it if the answer arrives. */
    method TakeAndRun(me: Consumer, w: Weather) returns (ran: Option<Job>)
      requires Valid() && PhaseOf(s, me) == Ready && LeavesAlone(w, me)
      modifies this
      ensures Valid() && PhaseOf(s, me) == Idle && Grows(old(s), s) && old(states) <= states
      ensures ran == if w.heard && old(s).main != [] then Some(old(s).main[|old(s).main| - 1]) else None
      ensures ran.Some? ==> Runs(s, ran.value.id) > Runs(old(s), ran.value.id) && Settled(me, w, ran.value, |old(states)|)
      ensures old(s).main == [] ==> s.main == [] && s.lists == old(s).lists
      ensures !w.heard && old(s).main != [] ==>
        && s.main == old(s).main[..|old(s).main| - 1]
        && Entries(s, me) == [old(s).main[|old(s).main| - 1]] + Entries(old(s), me)
      ensures NoOthers(w.others) && ran.Some? ==>
        s == Ended(cfg, Next(cfg, old(s), Take(me, true)), me, ran.value, w.raises, w.pushed, w.removed)
    {
      ran := None;
      Do(Take(me, w.heard));
      ghost var taken := s;
      if PhaseOf(s, me).Running? {
        ran := Some(PhaseOf(s, me).job);
        assert Runs(taken, ran.value.id) == Runs(old(s), ran.value.id) + 1;
        Others(w.others(1), me);
        Execute(me, w, ran.value);
      }
    }
  }
}
