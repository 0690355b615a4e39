/**
  The post-commit dispatcher (app/services/async_dispatch.py): a task is handed to the
  durable queue, run on a small thread pool behind a bounded semaphore, or run inline in
  the caller. Submitters and pool threads interleave freely.
 */
module AsyncDispatch {

  /** Where the submitting thread stands with its task; Raised when its release failed and left submit. */
  datatype Caller = New | Missed | Holding | Refused | Inline | Returned(queued: bool) | Raised

  /** Where the pool stands with it. */
  datatype Pool = Absent | Queued | Running | Releasing | Finished

  /**
    A task, how often it was run or handed over, how often a call did what it denied, and how
    often an exception dropped it.
   */
  datatype Task = Task(
    caller: Caller,
    pool: Pool,
    inlineRuns: nat,
    poolRuns: nat,
    handed: nat,
    lies: nat,
    drops: nat)

  predicate IsNew(task: Task) {
    task.caller == New && task.handed == 0
  }

  /** overflows: releases that found every permit free, which the bounded semaphore answers with an error. */
  datatype State = State(bound: nat, permits: nat, tasks: seq<Task>, overflows: nat)

  function NewTask(): Task {
    Task(New, Absent, 0, 0, 0, 0, 0)
  }

  datatype Step =
    | Arrive
    | RunSynchronously(t: nat)
    | TryDurable(t: nat, pushed: bool, answered: bool)
    | Acquire(t: nat)
    | Submit(t: nat, accepted: bool, raises: bool)
    | GiveBack(t: nat)
    | RunInline(t: nat)
    | Start(t: nat, entered: bool)
    | Finish(t: nat)
    | Release(t: nat)

  function With(s: State, t: nat, task: Task): State
    requires t < |s.tasks|
  {
    s.(tasks := s.tasks[t := task])
  }

  /** BoundedSemaphore.release */
  function Freed(s: State): State {
    if s.permits < s.bound then s.(permits := s.permits + 1) else s.(overflows := s.overflows + 1)
  }

  function Next(s: State, step: Step): State {
    if step.Arrive? then s.(tasks := s.tasks + [NewTask()])
    else if step.t >= |s.tasks| then s
    else
      var task := s.tasks[step.t];
      match step
      case RunSynchronously(t) => if task.caller == New then With(s, t, task.(caller := Inline)) else s
      case TryDurable(t, pushed, answered) =>
        if task.caller != New then s
        else if pushed && answered then With(s, t, task.(caller := Returned(true), handed := task.handed + 1))
        else if pushed then With(s, t, task.(caller := Missed, handed := task.handed + 1, lies := task.lies + 1))
        else With(s, t, task.(caller := Missed))
      case Acquire(t) =>
        if task.caller != Missed then s
        else if s.permits == 0 then With(s, t, task.(caller := Inline))
        else With(s, t, task.(caller := Holding)).(permits := s.permits - 1)
      case Submit(t, accepted, raises) =>
        if task.caller != Holding then s
        else if !raises then With(s, t, task.(caller := Returned(true), pool := Queued))
        else if accepted then With(s, t, task.(caller := Refused, pool := Queued, lies := task.lies + 1))
        else With(s, t, task.(caller := Refused))
      case GiveBack(t) =>
        if task.caller != Refused then s
        else if s.permits < s.bound then Freed(With(s, t, task.(caller := Inline)))
        else Freed(With(s, t, task.(caller := Raised, drops := task.drops + 1)))
      case RunInline(t) =>
        if task.caller == Inline then
          With(s, t, task.(caller := Returned(false), inlineRuns := task.inlineRuns + 1))
        else s
      case Start(t, entered) =>
        if task.pool != Queued then s
        else if entered then With(s, t, task.(pool := Running, poolRuns := task.poolRuns + 1))
        else With(s, t, task.(pool := Releasing, drops := task.drops + 1))
      case Finish(t) => if task.pool == Running then With(s, t, task.(pool := Releasing)) else s
      case Release(t) => if task.pool == Releasing then Freed(With(s, t, task.(pool := Finished))) else s
  }

  function Init(bound: nat): State {
    State(bound, bound, [], 0)
  }

  function Run(s: State, steps: seq<Step>): State {
    if steps == [] then s else Next(Run(s, steps[..|steps| - 1]), steps[|steps| - 1])
  }

  // ---- Exactly once -------------------------------------------------------------------

  function Executions(task: Task): nat {
    task.inlineRuns + task.poolRuns + task.handed
  }

  /** The caller has its answer, or an exception, and the pool owes the task nothing any more. */
  predicate Settled(task: Task) {
    (task.caller.Returned? || task.caller == Raised) && task.pool != Queued
  }

  /** What is still to come: one execution per place that has the task. */
  function Owed(task: Task): nat {
    (if task.caller in {New, Missed, Holding, Refused, Inline} then 1 else 0) + (if task.pool == Queued then 1 else 0)
  }

  predicate Balanced(task: Task) {
    && Executions(task) + Owed(task) + task.drops == 1 + task.lies
    && (task.caller in {New, Missed, Holding} ==> task.pool == Absent)
  }

  /** The caller is told that the task ran inline exactly when it ran the task itself. */
  predicate Answered(task: Task) {
    task.inlineRuns == if task.caller == Returned(false) then 1 else 0
  }

  ghost predicate AllBalanced(s: State) {
    forall t :: 0 <= t < |s.tasks| ==> Balanced(s.tasks[t]) && Answered(s.tasks[t])
  }

  /** A step changes its own task only. */
  lemma OtherTasksStay(s: State, step: Step, t: nat)
    requires t < |s.tasks| && !(step.Arrive? || step.t == t)
    ensures t < |Next(s, step).tasks| && Next(s, step).tasks[t] == s.tasks[t]
  {
  }

  lemma ActedTaskBalances(s: State, step: Step)
    requires !step.Arrive? && step.t < |s.tasks| && Balanced(s.tasks[step.t]) && Answered(s.tasks[step.t])
    ensures |Next(s, step).tasks| == |s.tasks|
    ensures Balanced(Next(s, step).tasks[step.t]) && Answered(Next(s, step).tasks[step.t])
  {
  }

  lemma NextBalances(s: State, step: Step)
    requires AllBalanced(s)
    ensures AllBalanced(Next(s, step))
  {
    if !step.Arrive? && step.t < |s.tasks| {
      ActedTaskBalances(s, step);
      forall t: nat | t < |s.tasks| && t != step.t ensures Next(s, step).tasks[t] == s.tasks[t] {
        OtherTasksStay(s, step, t);
      }
    }
  }

  lemma {:induction false} RunBalances(bound: nat, steps: seq<Step>)
    ensures AllBalanced(Run(Init(bound), steps))
    decreases |steps|
  {
    if steps != [] {
      RunBalances(bound, steps[..|steps| - 1]);
      NextBalances(Run(Init(bound), steps[..|steps| - 1]), steps[|steps| - 1]);
    }
  }

  /** The step had an effect on the task that its call then denied. */
  predicate Denies(s: State, step: Step, t: nat) {
    && t < |s.tasks|
    && ((step.TryDurable? && step.t == t && s.tasks[t].caller == New && step.pushed && !step.answered)
        || (step.Submit? && step.t == t && s.tasks[t].caller == Holding && step.accepted && step.raises))
  }

  /** An exception leaves the task undone: the caller's release finds every permit free, or the pool thread no context. */
  predicate Drops(s: State, step: Step, t: nat) {
    && t < |s.tasks|
    && ((step.GiveBack? && step.t == t && s.tasks[t].caller == Refused && s.permits >= s.bound)
        || (step.Start? && step.t == t && s.tasks[t].pool == Queued && !step.entered))
  }

  function Denials(bound: nat, steps: seq<Step>, t: nat): nat {
    if steps == [] then 0
    else
      var before := steps[..|steps| - 1];
      Denials(bound, before, t) + if Denies(Run(Init(bound), before), steps[|steps| - 1], t) then 1 else 0
  }

  function Losses(bound: nat, steps: seq<Step>, t: nat): nat {
    if steps == [] then 0
    else
      var before := steps[..|steps| - 1];
      Losses(bound, before, t) + if Drops(Run(Init(bound), before), steps[|steps| - 1], t) then 1 else 0
  }

  function LiesOf(s: State, t: nat): nat {
    if t < |s.tasks| then s.tasks[t].lies else 0
  }

  function DropsOf(s: State, t: nat): nat {
    if t < |s.tasks| then s.tasks[t].drops else 0
  }

  lemma StepRecords(s: State, step: Step, t: nat)
    ensures LiesOf(Next(s, step), t) == LiesOf(s, t) + if Denies(s, step, t) then 1 else 0
    ensures DropsOf(Next(s, step), t) == DropsOf(s, t) + if Drops(s, step, t) then 1 else 0
  {
    if t < |s.tasks| && !step.Arrive? && step.t != t {
      OtherTasksStay(s, step, t);
    }
  }

  /** The records of a task count what happened to it in the run. */
  lemma {:induction false} RunRecords(bound: nat, steps: seq<Step>, t: nat)
    ensures LiesOf(Run(Init(bound), steps), t) == Denials(bound, steps, t)
    ensures DropsOf(Run(Init(bound), steps), t) == Losses(bound, steps, t)
    decreases |steps|
  {
    if steps != [] {
      RunRecords(bound, steps[..|steps| - 1], t);
      StepRecords(Run(Init(bound), steps[..|steps| - 1]), steps[|steps| - 1], t);
    }
  }

  /**
    A settled task was executed — run inline, run in the pool, or handed to the durable queue —
    once, once more for each call that did what it denied, and once less for each exception
    that dropped it. So it was executed exactly once if and only if these are as many.
   */
  lemma SettledTasksRanOnce(bound: nat, steps: seq<Step>, t: nat)
    requires t < |Run(Init(bound), steps).tasks| && Settled(Run(Init(bound), steps).tasks[t])
    ensures var task := Run(Init(bound), steps).tasks[t];
      && Executions(task) == 1 + Denials(bound, steps, t) - Losses(bound, steps, t)
      && (Executions(task) == 1 <==> Denials(bound, steps, t) == Losses(bound, steps, t))
      && task.inlineRuns == if task.caller == Returned(false) then 1 else 0
  {
    RunBalances(bound, steps);
    RunRecords(bound, steps, t);
  }

  // ---- Permits --------------------------------------------------------------------------

  function Holds(task: Task): nat {
    (if task.caller in {Holding, Refused} then 1 else 0) + (if task.pool in {Queued, Running, Releasing} then 1 else 0)
  }

  function Held(tasks: seq<Task>): nat {
    if tasks == [] then 0 else Held(tasks[..|tasks| - 1]) + Holds(tasks[|tasks| - 1])
  }

  lemma {:induction false} HeldAfter(tasks: seq<Task>, t: nat, task: Task)
    requires t < |tasks|
    ensures Held(tasks[t := task]) + Holds(tasks[t]) == Held(tasks) + Holds(task)
    decreases |tasks|
  {
    var shorter := tasks[..|tasks| - 1];
    if t < |tasks| - 1 {
      HeldAfter(shorter, t, task);
      assert tasks[t := task][..|tasks| - 1] == shorter[t := task];
    } else {
      assert tasks[t := task][..|tasks| - 1] == shorter;
    }
  }

  lemma {:induction false} HeldCovers(tasks: seq<Task>, t: nat)
    requires t < |tasks|
    ensures Holds(tasks[t]) <= Held(tasks)
    decreases |tasks|
  {
    if t < |tasks| - 1 {
      HeldCovers(tasks[..|tasks| - 1], t);
    }
  }

  /** The executor queues a task and raises all the same, as when it cannot start a thread for it. */
  predicate Misleads(s: State, step: Step) {
    step.Submit? && step.t < |s.tasks| && s.tasks[step.t].caller == Holding && step.accepted && step.raises
  }

  function Misdeed(s: State, step: Step): nat {
    if Misleads(s, step) then 1 else 0
  }

  /** Nothing does what it denies, and every pool thread finds its context. */
  predicate Honest(step: Step) {
    && (step.Submit? ==> !(step.accepted && step.raises))
    && (step.TryDurable? ==> step.pushed == step.answered)
    && (step.Start? ==> step.entered)
  }

  /** How many callers ended with an exception. */
  function Raisings(tasks: seq<Task>): nat {
    if tasks == [] then 0
    else Raisings(tasks[..|tasks| - 1]) + if tasks[|tasks| - 1].caller == Raised then 1 else 0
  }

  lemma {:induction false} RaisingsAfter(tasks: seq<Task>, t: nat, task: Task)
    requires t < |tasks|
    ensures Raisings(tasks[t := task]) + (if tasks[t].caller == Raised then 1 else 0)
         == Raisings(tasks) + if task.caller == Raised then 1 else 0
    decreases |tasks|
  {
    var shorter := tasks[..|tasks| - 1];
    if t < |tasks| - 1 {
      RaisingsAfter(shorter, t, task);
      assert tasks[t := task][..|tasks| - 1] == shorter[t := task];
    } else {
      assert tasks[t := task][..|tasks| - 1] == shorter;
    }
  }

  /**
    Free and held permits and failed releases are the bound and one more for each time the
    executor misled its caller; only that makes releases fail, and only these make callers raise.
   */
  ghost predicate PermitsMatch(s: State, misdeeds: nat) {
    && s.permits + Held(s.tasks) + s.overflows == s.bound + misdeeds
    && s.permits <= s.bound && Raisings(s.tasks) <= s.overflows <= misdeeds
  }

  /** What a step does to the permits is what its task gives up or takes, but for misleading and failing. */
  lemma ActedTaskPermits(s: State, step: Step)
    requires !step.Arrive? && step.t < |s.tasks| && Balanced(s.tasks[step.t]) && s.permits <= s.bound
    ensures var n := Next(s, step);
      && |n.tasks| == |s.tasks| && n.tasks == s.tasks[step.t := n.tasks[step.t]]
      && n.bound == s.bound && n.permits <= s.bound
      && n.permits + Holds(n.tasks[step.t]) + n.overflows
         == s.permits + Holds(s.tasks[step.t]) + s.overflows + Misdeed(s, step)
  {
  }

  lemma ActedTaskRaises(s: State, step: Step)
    requires !step.Arrive? && step.t < |s.tasks|
    ensures var n := Next(s, step);
      && |n.tasks| == |s.tasks|
      && (n.overflows == s.overflows ==> (n.tasks[step.t].caller == Raised <==> s.tasks[step.t].caller == Raised))
      && s.overflows <= n.overflows <= s.overflows + 1
      && (n.overflows > s.overflows ==> s.permits >= s.bound && Holds(s.tasks[step.t]) > 0 && !Misleads(s, step))
  {
  }

  lemma NextKeepsPermits(s: State, step: Step, misdeeds: nat)
    requires PermitsMatch(s, misdeeds) && AllBalanced(s)
    ensures PermitsMatch(Next(s, step), misdeeds + Misdeed(s, step))
  {
    var n := Next(s, step);
    if step.Arrive? {
      assert n.tasks[..|n.tasks| - 1] == s.tasks;
    } else if step.t < |s.tasks| {
      HeldCovers(s.tasks, step.t);
      ActedTaskPermits(s, step);
      ActedTaskRaises(s, step);
      HeldAfter(s.tasks, step.t, n.tasks[step.t]);
      RaisingsAfter(s.tasks, step.t, n.tasks[step.t]);
    }
  }

  function Misdeeds(bound: nat, steps: seq<Step>): nat {
    if steps == [] then 0
    else
      var before := steps[..|steps| - 1];
      Misdeeds(bound, before) + Misdeed(Run(Init(bound), before), steps[|steps| - 1])
  }

  /** In every run at most as many callers raise, and releases fail, as the executor misled callers. */
  lemma {:induction false} PermitsAreCounted(bound: nat, steps: seq<Step>)
    ensures PermitsMatch(Run(Init(bound), steps), Misdeeds(bound, steps))
    decreases |steps|
  {
    if steps != [] {
      PermitsAreCounted(bound, steps[..|steps| - 1]);
      RunBalances(bound, steps[..|steps| - 1]);
      NextKeepsPermits(Run(Init(bound), steps[..|steps| - 1]), steps[|steps| - 1], Misdeeds(bound, steps[..|steps| - 1]));
    }
  }

  ghost predicate PermitsBalance(s: State) {
    s.permits + Held(s.tasks) == s.bound && s.overflows == 0
  }

  predicate AllHonest(steps: seq<Step>) {
    forall i :: 0 <= i < |steps| ==> Honest(steps[i])
  }

  lemma {:induction false} HonestRunsMisleadNobody(bound: nat, steps: seq<Step>, t: nat)
    requires AllHonest(steps)
    ensures Misdeeds(bound, steps) == 0 && Denials(bound, steps, t) == 0
    decreases |steps|
  {
    if steps != [] {
      HonestRunsMisleadNobody(bound, steps[..|steps| - 1], t);
    }
  }

  /** Where nothing lies, free and held permits add up to the bound, so no release overflows it. */
  lemma PermitsAreConserved(bound: nat, steps: seq<Step>)
    requires AllHonest(steps)
    ensures PermitsBalance(Run(Init(bound), steps))
  {
    PermitsAreCounted(bound, steps);
    HonestRunsMisleadNobody(bound, steps, 0);
  }

  /** So no task is dropped there... */
  lemma {:induction false} HonestRunsDropNothing(bound: nat, steps: seq<Step>, t: nat)
    requires AllHonest(steps)
    ensures Losses(bound, steps, t) == 0
    decreases |steps|
  {
    if steps != [] {
      var before := steps[..|steps| - 1];
      HonestRunsDropNothing(bound, before, t);
      PermitsAreConserved(bound, before);
      if t < |Run(Init(bound), before).tasks| {
        HeldCovers(Run(Init(bound), before).tasks, t);
      }
    }
  }

  /** ...and every settled task was executed exactly once, and its caller was told where. */
  lemma HonestRunsExecuteOnce(bound: nat, steps: seq<Step>, t: nat)
    requires AllHonest(steps)
    requires t < |Run(Init(bound), steps).tasks| && Settled(Run(Init(bound), steps).tasks[t])
    ensures var task := Run(Init(bound), steps).tasks[t];
      Executions(task) == 1 && task.caller == Returned(task.inlineRuns == 0)
  {
    SettledTasksRanOnce(bound, steps, t);
    HonestRunsMisleadNobody(bound, steps, t);
    HonestRunsDropNothing(bound, steps, t);
    HonestRunsRaiseNothing(bound, steps, t);
  }

  lemma HonestRunsRaiseNothing(bound: nat, steps: seq<Step>, t: nat)
    requires AllHonest(steps) && t < |Run(Init(bound), steps).tasks|
    ensures Run(Init(bound), steps).tasks[t].caller != Raised
  {
    PermitsAreCounted(bound, steps);
    HonestRunsMisleadNobody(bound, steps, t);
    if Run(Init(bound), steps).tasks[t].caller == Raised {
      RaisingsCover(Run(Init(bound), steps).tasks, t);
    }
  }

  lemma {:induction false} RaisingsCover(tasks: seq<Task>, t: nat)
    requires t < |tasks| && tasks[t].caller == Raised
    ensures Raisings(tasks) > 0
    decreases |tasks|
  {
    if t < |tasks| - 1 {
      RaisingsCover(tasks[..|tasks| - 1], t);
    }
  }

  // ---- Where an executor misleads ----------------------------------------------------------

  lemma RunThen(s: State, steps: seq<Step>, step: Step)
    ensures Run(s, steps + [step]) == Next(Run(s, steps), step)
  {
    assert (steps + [step])[..|steps|] == steps;
  }

  /** A task whose only submission was queued and raised. */
  function Misled(): Task {
    Task(Refused, Queued, 0, 0, 0, 1, 0)
  }

  lemma MisledRun(bound: nat) returns (steps: seq<Step>)
    requires 0 < bound
    ensures Run(Init(bound), steps) == State(bound, bound - 1, [Misled()], 0)
  {
    steps := [];
    RunThen(Init(bound), steps, Arrive);
    steps := steps + [Arrive];
    RunThen(Init(bound), steps, TryDurable(0, false, true));
    steps := steps + [TryDurable(0, false, true)];
    assert Run(Init(bound), steps) == State(bound, bound, [Task(Missed, Absent, 0, 0, 0, 0, 0)], 0);
    RunThen(Init(bound), steps, Acquire(0));
    steps := steps + [Acquire(0)];
    RunThen(Init(bound), steps, Submit(0, true, true));
    steps := steps + [Submit(0, true, true)];
  }

  /** The caller then gives its permit back and runs the task itself. */
  lemma MisledCaller(bound: nat) returns (steps: seq<Step>)
    requires 0 < bound
    ensures Run(Init(bound), steps) == State(bound, bound, [Task(Returned(false), Queued, 1, 0, 0, 1, 0)], 0)
  {
    steps := MisledRun(bound);
    RunThen(Init(bound), steps, GiveBack(0));
    steps := steps + [GiveBack(0)];
    assert Run(Init(bound), steps) == State(bound, bound, [Task(Inline, Queued, 0, 0, 0, 1, 0)], 0);
    RunThen(Init(bound), steps, RunInline(0));
    steps := steps + [RunInline(0)];
  }

  /** If the caller is first, the task runs twice, and the pool's release fails. */
  lemma LyingExecutorRunsTwice(bound: nat) returns (steps: seq<Step>)
    requires 0 < bound
    ensures var s := Run(Init(bound), steps);
      |s.tasks| == 1 && Settled(s.tasks[0]) && Executions(s.tasks[0]) == 2 && s.overflows == 1
  {
    steps := MisledCaller(bound);
    RunThen(Init(bound), steps, Start(0, true));
    steps := steps + [Start(0, true)];
    assert Run(Init(bound), steps) == State(bound, bound, [Task(Returned(false), Running, 1, 1, 0, 1, 0)], 0);
    RunThen(Init(bound), steps, Finish(0));
    steps := steps + [Finish(0)];
    assert Run(Init(bound), steps) == State(bound, bound, [Task(Returned(false), Releasing, 1, 1, 0, 1, 0)], 0);
    RunThen(Init(bound), steps, Release(0));
    steps := steps + [Release(0)];
  }

  /** One more step, from one known state to another. */
  lemma OneMore(bound: nat, steps: seq<Step>, step: Step, next: State) returns (more: seq<Step>)
    requires Next(Run(Init(bound), steps), step) == next
    ensures more == steps + [step] && Run(Init(bound), more) == next
  {
    RunThen(Init(bound), steps, step);
    more := steps + [step];
  }

  /** If the pool is first, the task runs once and the caller's release raises out of submit. */
  lemma LyingExecutorRaises(bound: nat) returns (steps: seq<Step>)
    requires 0 < bound
    ensures Run(Init(bound), steps) == State(bound, bound, [Task(Raised, Finished, 0, 1, 0, 1, 1)], 1)
  {
    steps := MisledRun(bound);
    steps := OneMore(bound, steps, Start(0, true), State(bound, bound - 1, [Task(Refused, Running, 0, 1, 0, 1, 0)], 0));
    steps := OneMore(bound, steps, Finish(0), State(bound, bound - 1, [Task(Refused, Releasing, 0, 1, 0, 1, 0)], 0));
    steps := OneMore(bound, steps, Release(0), State(bound, bound, [Task(Refused, Finished, 0, 1, 0, 1, 0)], 0));
    steps := OneMore(bound, steps, GiveBack(0), State(bound, bound, [Task(Raised, Finished, 0, 1, 0, 1, 1)], 1));
  }

  /** The second task, refused honestly beside a misled one. */
  lemma RefusedBesideMisled(bound: nat) returns (steps: seq<Step>)
    requires 1 < bound
    ensures Run(Init(bound), steps) == State(bound, bound - 2, [Misled(), Task(Refused, Absent, 0, 0, 0, 0, 0)], 0)
  {
    steps := MisledRun(bound);
    steps := OneMore(bound, steps, Arrive, State(bound, bound - 1, [Misled(), NewTask()], 0));
    steps := OneMore(bound, steps, TryDurable(1, false, true),
                      State(bound, bound - 1, [Misled(), Task(Missed, Absent, 0, 0, 0, 0, 0)], 0));
    steps := OneMore(bound, steps, Acquire(1),
                      State(bound, bound - 2, [Misled(), Task(Holding, Absent, 0, 0, 0, 0, 0)], 0));
    steps := OneMore(bound, steps, Submit(1, false, true),
                      State(bound, bound - 2, [Misled(), Task(Refused, Absent, 0, 0, 0, 0, 0)], 0));
  }

  /** The misled task runs in the pool and then inline, and gives back two permits for its one. */
  lemma MisledTakesTwo(bound: nat) returns (steps: seq<Step>)
    requires 1 < bound
    ensures Run(Init(bound), steps)
         == State(bound, bound, [Task(Inline, Finished, 0, 1, 0, 1, 0), Task(Refused, Absent, 0, 0, 0, 0, 0)], 0)
  {
    var b := Task(Refused, Absent, 0, 0, 0, 0, 0);
    steps := RefusedBesideMisled(bound);
    steps := OneMore(bound, steps, Start(0, true), State(bound, bound - 2, [Task(Refused, Running, 0, 1, 0, 1, 0), b], 0));
    steps := OneMore(bound, steps, Finish(0), State(bound, bound - 2, [Task(Refused, Releasing, 0, 1, 0, 1, 0), b], 0));
    steps := OneMore(bound, steps, Release(0), State(bound, bound - 1, [Task(Refused, Finished, 0, 1, 0, 1, 0), b], 0));
    steps := OneMore(bound, steps, GiveBack(0), State(bound, bound, [Task(Inline, Finished, 0, 1, 0, 1, 0), b], 0));
  }

  /** Then the other task, about which nobody lied, is never executed: its caller's release raises. */
  lemma AnotherTaskIsLost(bound: nat) returns (steps: seq<Step>)
    requires 1 < bound
    ensures var s := Run(Init(bound), steps);
      |s.tasks| == 2 && s.tasks[1] == Task(Raised, Absent, 0, 0, 0, 0, 1)
    ensures Settled(Run(Init(bound), steps).tasks[1]) && Executions(Run(Init(bound), steps).tasks[1]) == 0
    ensures Denials(bound, steps, 1) == 0
  {
    steps := MisledTakesTwo(bound);
    steps := OneMore(bound, steps, GiveBack(1),
      State(bound, bound, [Task(Inline, Finished, 0, 1, 0, 1, 0), Task(Raised, Absent, 0, 0, 0, 0, 1)], 1));
    RunRecords(bound, steps, 1);
  }

  // ---- The function itself -----------------------------------------------------------------

  /** What happens around one submission: other threads' steps, and the outcomes of its calls. */
  datatype Weather = Weather(
    others: nat -> seq<Step>,
    synchronous: bool,
    pushed: bool,
    answered: bool,
    accepted: bool,
    raises: bool)

  /** What the caller of a task relies on while others act: only the pool touches the task. */
  predicate Undisturbed(before: Task, after: Task) {
    && after.caller == before.caller && after.inlineRuns == before.inlineRuns && after.handed == before.handed
    && (before.pool == Absent ==> after == before)
  }

  predicate ActsAsCaller(step: Step, t: nat) {
    !step.Arrive? && step.t == t && !step.Start? && !step.Finish? && !step.Release?
  }

  lemma OthersDoNotDisturb(s: State, step: Step, t: nat)
    requires t < |s.tasks| && !ActsAsCaller(step, t)
    ensures t < |Next(s, step).tasks| && Undisturbed(s.tasks[t], Next(s, step).tasks[t])
  {
  }

  predicate OnlyOthers(steps: seq<Step>, t: nat) {
    forall i :: 0 <= i < |steps| ==> !ActsAsCaller(steps[i], t)
  }

  ghost predicate Elsewhere(w: Weather, t: nat) {
    forall k :: OnlyOthers(w.others(k), t)
  }

  ghost predicate HonestWeather(w: Weather) {
    !(w.accepted && w.raises) && w.pushed == w.answered && forall k :: AllHonest(w.others(k))
  }

  /** How a submission ends: queued, run in the caller, or with the error of a failed release. */
  datatype Answer = InBackground | RanInline | ReleaseError

  function Told(answer: Answer): Caller {
    match answer
    case InBackground => Returned(true)
    case RanInline => Returned(false)
    case ReleaseError => Raised
  }

  class Dispatcher {
    var s: State
    ghost var misdeeds: nat

    constructor (bound: nat)
      ensures Valid() && misdeeds == 0 && s == Init(bound)
    {
      s, misdeeds := Init(bound), 0;
    }

    ghost predicate Valid()
      reads this
    {
      AllBalanced(s) && PermitsMatch(s, misdeeds)
    }

    method Do(step: Step)
      requires Valid()
      modifies this
      ensures Valid() && s == Next(old(s), step) && misdeeds == old(misdeeds) + Misdeed(old(s), step)
    {
      NextBalances(s, step);
      NextKeepsPermits(s, step, misdeeds);
      misdeeds := misdeeds + Misdeed(s, step);
      s := Next(s, step);
    }

    method DoOther(step: Step, t: nat)
      requires Valid() && t < |s.tasks| && !ActsAsCaller(step, t)
      modifies this
      ensures Valid() && t < |s.tasks| && Undisturbed(old(s.tasks[t]), s.tasks[t])
      ensures Honest(step) ==> misdeeds == old(misdeeds)
    {
      OthersDoNotDisturb(s, step, t);
      Do(step);
    }

    /** Steps of other threads: they may run the task in the pool but never act as its caller. */
    method Others(steps: seq<Step>, t: nat)
      requires Valid() && t < |s.tasks| && OnlyOthers(steps, t)
      modifies this
      ensures Valid() && t < |s.tasks| && Undisturbed(old(s.tasks[t]), s.tasks[t])
      ensures AllHonest(steps) ==> misdeeds == old(misdeeds)
    {
      for i := 0 to |steps|
        invariant Valid() && t < |s.tasks| && Undisturbed(old(s.tasks[t]), s.tasks[t])
        invariant AllHonest(steps) ==> misdeeds == old(misdeeds)
      {
        DoOther(steps[i], t);
      }
    }

    /** The permit of a refused submission, whose release fails when every permit is free. */
    method Back(t: nat) returns (released: bool)
      requires Valid() && t < |s.tasks| && s.tasks[t].caller == Refused
      modifies this
      ensures Valid() && t < |s.tasks| && misdeeds == old(misdeeds)
      ensures released <==> old(s.permits) < old(s.bound)
      ensures s.tasks[t].caller == if released then Inline else Raised
      ensures misdeeds == 0 ==> released
    {
      released := s.permits < s.bound;
      HeldCovers(s.tasks, t);
      Do(GiveBack(t));
    }

    /** The way through the pool: the executor took the task, the caller must run it, or the release failed. */
    method Pooled(t: nat, w: Weather) returns (answer: Answer)
      requires Valid() && t < |s.tasks| && s.tasks[t].caller == Missed
      requires Elsewhere(w, t)
      modifies this
      ensures Valid() && t < |s.tasks|
      ensures s.tasks[t].caller == if answer == RanInline then Inline else Told(answer)
      ensures answer == InBackground ==> s.tasks[t].pool == Queued && !w.raises
      ensures answer == ReleaseError ==> misdeeds > 0 && w.raises
      ensures HonestWeather(w) ==> misdeeds == old(misdeeds)
    {
      Do(Acquire(t));
      if s.tasks[t].caller == Inline {
        return RanInline;
      }
      Others(w.others(1), t);
      Do(Step.Submit(t, w.accepted, w.raises));
      if !w.raises {
        return InBackground;
      }
      Others(w.others(2), t);
      var released := Back(t);
      answer := if released then RanInline else ReleaseError;
    }

    /** Run the task in the calling thread. */
    method InCaller(t: nat)
      requires Valid() && t < |s.tasks| && s.tasks[t].caller == Inline
      modifies this
      ensures Valid() && t < |s.tasks| && s.tasks[t].caller == Returned(false) && misdeeds == old(misdeeds)
    {
      Do(RunInline(t));
    }

    /** Offer the task to the durable queue. */
    method Offer(t: nat, w: Weather)
      requires Valid() && t < |s.tasks| && IsNew(s.tasks[t])
      modifies this
      ensures Valid() && t < |s.tasks| && misdeeds == old(misdeeds)
      ensures s.tasks[t].caller == if w.pushed && w.answered then Returned(true) else Missed
      ensures s.tasks[t].handed == if w.pushed then 1 else 0
    {
      Do(TryDurable(t, w.pushed, w.answered));
    }

    /** The dispatch of an arrived task: durable queue, thread pool, or the caller itself. */
    method Dispatch(t: nat, w: Weather) returns (answer: Answer)
      requires Valid() && t < |s.tasks| && IsNew(s.tasks[t]) && Elsewhere(w, t)
      modifies this
      ensures Valid() && t < |s.tasks| && s.tasks[t].caller == Told(answer)
      ensures answer == InBackground ==> s.tasks[t].handed == 1 || s.tasks[t].pool == Queued
      ensures answer == ReleaseError ==> misdeeds > 0 && w.raises
      ensures HonestWeather(w) ==> misdeeds == old(misdeeds)
      ensures w.synchronous ==> answer == RanInline
      ensures !w.synchronous && w.pushed && w.answered ==> answer == InBackground && s.tasks[t].handed == 1
    {
      if w.synchronous {
        Do(RunSynchronously(t));
      } else {
        Offer(t, w);
        if w.pushed && w.answered {
          return InBackground;
        }
        Others(w.others(0), t);
        answer := Pooled(t, w);
        if answer != RanInline {
          return;
        }
      }
      InCaller(t);
      answer := RanInline;
    }

    /**
      Submit one task: queued, run in the caller, or, when an executor has misled a caller
      before, possibly neither but the error of a release that found every permit free.
     */
    method Submit(w: Weather) returns (answer: Answer, t: nat)
      requires Valid() && Elsewhere(w, |s.tasks|)
      modifies this
      ensures Valid() && t == old(|s.tasks|) < |s.tasks| && s.tasks[t].caller == Told(answer)
      ensures answer == InBackground ==> s.tasks[t].handed == 1 || s.tasks[t].pool == Queued
      ensures answer == ReleaseError ==> misdeeds > 0 && w.raises
      ensures HonestWeather(w) ==> misdeeds == old(misdeeds)
      ensures w.synchronous ==> answer == RanInline
      ensures !w.synchronous && w.pushed && w.answered ==> answer == InBackground && s.tasks[t].handed == 1
    {
      t := |s.tasks|;
      Do(Arrive);
      answer := Dispatch(t, w);
    }
  }
}
