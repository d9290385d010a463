/** The thread that runs a job, in both execution modes, as a transition system. Its steps interleave with the ends of
    the task processes it has started, and it may be cancelled anywhere and created again. */
module Attempts {
  import opened Tasks

  datatype Mode = Sequential | Parallel

  /** Where the job thread is: the head of the do loop, the task list, a join, and the statements after the list. */
  datatype Pc = Head | At(i: nat) | JoinOne(i: nat) | JoinAll(k: nat) | Count | Check | Reset | Test

  /** A cancelled thread runs its clean-up handlers, which join the processes they know. */
  datatype Thread = Absent | Cleaning(joins: set<nat>) | Live(pc: Pc, completion: bool, again: bool)

  /** tasks are the statuses of the job's tasks, pending the started processes that have not ended, stored the runners
      in task_runners. Of the current attempt, origin remembers the statuses it began with and started the tasks it has
      started; results are the statuses in which the completed attempts ended. */
  datatype Runner = Runner(mode: Mode, repeating: bool, tasks: seq<Status>, pending: set<nat>, stored: seq<nat>,
                           thread: Thread, attempts: nat, completions: nat, successes: nat, created: nat,
                           origin: seq<Status>, started: seq<nat>, results: seq<seq<Status>>)

  /** launched tells whether task_run would succeed. */
  datatype Action = Create | Turn(launched: bool) | Finish(i: nat, ending: Ending) | Cancel

  function NewRunner(mode: Mode, repeating: bool, tasks: seq<Status>): Runner {
    Runner(mode, repeating, tasks, {}, [], Absent, 0, 0, 0, 0, tasks, [], [])
  }

  predicate Enabled(r: Runner, a: Action) {
    match a
    case Create => r.thread.Absent?
    case Cancel => r.thread.Live?
    case Finish(i, _) => i in r.pending && i < |r.tasks|
    case Turn(_) =>
      match r.thread
      case Absent => false
      case Cleaning(joins) => joins !! r.pending
      case Live(JoinOne(i), _, _) => i !in r.pending
      case Live(JoinAll(k), _, _) => k < |r.stored| ==> r.stored[k] !in r.pending
      case Live(_, _, _) => true
  }

  /** The runners that a clean-up handler pushed at this place would destroy: the stored ones while the parallel loops
      run, the one runner that a sequential thread waits for, and none elsewhere. */
  function Handled(r: Runner): set<nat>
    requires r.thread.Live?
  {
    match r.thread.pc
    case JoinOne(i) => {i}
    case At(_) => if r.mode == Parallel then set i | i in r.stored else {}
    case JoinAll(_) => set i | i in r.stored
    case _ => {}
  }

  function Step(r: Runner, a: Action): Runner
    requires Enabled(r, a)
  {
    match a
    case Create => r.(thread := Live(Head, true, r.repeating), created := r.created + 1)
    case Cancel => r.(thread := Cleaning(Handled(r)))
    case Finish(i, ending) => r.(tasks := r.tasks[i := Ended(ending)], pending := r.pending - {i})
    case Turn(launched) => if r.thread.Cleaning? then r.(thread := Absent) else Go(r, launched)
  }

  /** The job thread goes on. */
  function Go(r: Runner, launched: bool): Runner
    requires r.thread.Live?
  {
    var Live(pc, completion, again) := r.thread;
    match pc
    case Head =>
      r.(thread := Live(At(0), true, again), attempts := r.attempts + 1, stored := [], origin := r.tasks, started := [])
    case At(i) => AtTask(r, i, launched)
    case JoinOne(i) => r.(thread := Live(At(i + 1), completion, again))
    case JoinAll(k) => r.(thread := Live(if k < |r.stored| then JoinAll(k + 1) else Count, completion, again))
    case Count =>
      r.(thread := Live(Check, completion, again), completions := r.completions + (if completion then 1 else 0),
         results := r.results + (if completion then [r.tasks] else []))
    case Check =>
      r.(thread := Live(Reset, completion, again),
         successes := r.successes + (if completion && Derived(r.tasks) == Completed then 1 else 0))
    case Reset =>
      r.(thread := Live(Test, completion, again),
         tasks := if completion && again then seq(|r.tasks|, _ => Ready) else r.tasks)
    case Test => r.(thread := if again then Live(Head, completion, again) else Absent)
  }

  /** The loop over the tasks reaches task i, or the end of the list. */
  function AtTask(r: Runner, i: nat, launched: bool): Runner
    requires r.thread.Live?
  {
    var leave := if r.mode == Parallel then JoinAll(0) else Count;
    var Live(_, completion, again) := r.thread;
    if i >= |r.tasks| then r.(thread := Live(leave, completion, again))
    else if Runnable(r.tasks[i]) && launched then
      r.(thread := Live(if r.mode == Parallel then At(i + 1) else JoinOne(i), completion, again),
         tasks := r.tasks[i := Busy], pending := r.pending + {i}, started := r.started + [i],
         stored := if r.mode == Parallel then r.stored + [i] else r.stored)
    else if r.tasks[i] == Completed then r.(thread := Live(At(i + 1), completion, again))
    else r.(thread := Live(leave, false, false))
  }

  // Every run

  /** A thread that has counted the last attempt it began as completed, or has begun none. */
  predicate Spare(t: Thread) {
    t.Live? && (t.pc == Head || (t.pc in {Check, Reset, Test} && t.completion))
  }

  /** The thread is in an attempt that may still complete. */
  predicate Open(t: Thread) {
    t.Live? && t.completion && (t.pc.At? || t.pc.JoinOne? || t.pc.JoinAll? || t.pc.Count?)
  }

  ghost predicate Counted(r: Runner) {
    && r.successes + (if r.thread.Live? && r.thread.pc == Check && r.thread.completion then 1 else 0) <= r.completions
    && r.completions + (if Open(r.thread) then 1 else 0) <= r.attempts
    && r.attempts + (if Spare(r.thread) then 1 else 0) <= r.completions + r.created
    && (r.thread.Live? && (r.thread.pc.At? || r.thread.pc.JoinOne?) ==> r.thread.completion)
    && (r.thread.Live? && r.thread.pc != Head && r.thread.again ==> r.thread.completion)
  }

  /** Every pending process has a runner among those still to be joined. */
  ghost predicate Holds(r: Runner, k: nat) {
    k <= |r.stored| && forall i | i in r.pending :: i in r.stored[k..]
  }

  /** Only processes that the thread will join are pending, so none outlives it; and task_runners is never overrun. */
  ghost predicate Owned(r: Runner) {
    && (forall i | i in r.pending :: i < |r.tasks|)
    && |r.stored| <= |r.tasks|
    && (r.mode == Sequential ==> r.stored == [])
    && match r.thread
       case Absent => r.pending == {}
       case Cleaning(joins) => r.pending <= joins
       case Live(At(i), _, _) => i <= |r.tasks| && |r.stored| <= i
           && if r.mode == Parallel then Holds(r, 0) else r.pending == {}
       case Live(JoinOne(i), _, _) => i < |r.tasks| && r.mode == Sequential && r.pending <= {i}
       case Live(JoinAll(k), _, _) => r.mode == Parallel && Holds(r, k)
       case Live(_, _, _) => r.pending == {}
  }

  lemma StepCounted(r: Runner, a: Action)
    requires Counted(r) && Enabled(r, a)
    ensures Counted(Step(r, a))
  {
  }

  lemma StepOwned(r: Runner, a: Action)
    requires Owned(r) && Enabled(r, a)
    ensures Owned(Step(r, a))
  {
    if a.Turn? && r.thread.Live? && r.thread.pc.At? {
      ListOwned(r, r.thread.pc.i, a.launched);
    } else {
      hide AtTask;
    }
  }

  lemma ListOwned(r: Runner, i: nat, launched: bool)
    requires Owned(r) && r.thread.Live? && r.thread.pc == At(i)
    ensures Owned(AtTask(r, i, launched))
  {
  }

  ghost predicate CanRun(r: Runner, actions: seq<Action>)
    decreases |actions|
  {
    actions == [] || (Enabled(r, actions[0]) && CanRun(Step(r, actions[0]), actions[1..]))
  }

  ghost function After(r: Runner, actions: seq<Action>): Runner
    requires CanRun(r, actions)
    decreases |actions|
  {
    if actions == [] then r else After(Step(r, actions[0]), actions[1..])
  }

  lemma {:induction false} RunKeeps(r: Runner, actions: seq<Action>)
    requires Counted(r) && Owned(r) && CanRun(r, actions)
    ensures Counted(After(r, actions)) && Owned(After(r, actions)) && |After(r, actions).tasks| == |r.tasks|
    decreases |actions|
  {
    hide Counted, Owned;
    if actions != [] {
      StepCounted(r, actions[0]);
      StepOwned(r, actions[0]);
      hide Enabled, Step;
      SameTasks(r, actions[0]);
      RunKeeps(Step(r, actions[0]), actions[1..]);
    }
  }

  lemma SameTasks(r: Runner, a: Action)
    requires Enabled(r, a)
    ensures |Step(r, a).tasks| == |r.tasks|
  {
  }

  /** In every state of every run, with restarts and cancellation at any point: the counters bound one another, the
      runners fit the array that job_run allocates, and no started process outlives its job thread. */
  lemma CountersBounded(mode: Mode, repeating: bool, tasks: seq<Status>, actions: seq<Action>)
    requires CanRun(NewRunner(mode, repeating, tasks), actions)
    ensures var r := After(NewRunner(mode, repeating, tasks), actions);
      && r.successes <= r.completions <= r.attempts <= r.completions + r.created
      && |r.stored| <= |tasks|
      && (r.thread == Absent ==> r.pending == {})
  {
    RunKeeps(NewRunner(mode, repeating, tasks), actions);
  }

  // One attempt

  /** The attempt breaks off at this task. */
  predicate Stops(s: Status, launched: bool) {
    s == NotReady || s == Busy || (Runnable(s) && !launched)
  }

  /** How many tasks the attempt passes; all of them when nothing stops it. */
  function Passed(tasks: seq<Status>, launched: seq<bool>): (k: nat)
    requires |launched| == |tasks|
    ensures k <= |tasks|
    ensures forall j | 0 <= j < k :: !Stops(tasks[j], launched[j])
    ensures k < |tasks| ==> Stops(tasks[k], launched[k])
  {
    if tasks == [] || Stops(tasks[0], launched[0]) then 0 else
      var k := Passed(tasks[1..], launched[1..]);
      assert forall j | 0 < j < k + 1 :: tasks[j] == tasks[1..][j - 1] && launched[j] == launched[1..][j - 1];
      k + 1
  }

  /** Task j after an attempt that has passed it: a task that was started has ended, any other is as it was. */
  function Settled(tasks: seq<Status>, launched: seq<bool>, endings: seq<Ending>, j: nat): Status
    requires |launched| == |endings| == |tasks| && j < |tasks|
  {
    if j < Passed(tasks, launched) && Runnable(tasks[j]) then Ended(endings[j]) else tasks[j]
  }

  function Settlement(tasks: seq<Status>, launched: seq<bool>, endings: seq<Ending>): (s: seq<Status>)
    requires |launched| == |endings| == |tasks|
    ensures |s| == |tasks|
  {
    seq(|tasks|, j requires 0 <= j < |tasks| => Settled(tasks, launched, endings, j))
  }

  /** The runnable ones among the first k tasks, in order. */
  function Starts(tasks: seq<Status>, k: nat): seq<nat>
    requires k <= |tasks|
  {
    if k == 0 then []
    else if Runnable(tasks[k - 1]) then Starts(tasks, k - 1) + [k - 1] else Starts(tasks, k - 1)
  }

  /** The given outcomes decide what this step does. */
  predicate Follows(r: Runner, a: Action, launched: seq<bool>, endings: seq<Ending>) {
    match a
    case Finish(i, e) => i < |endings| && e == endings[i]
    case Turn(l) => r.thread.Live? && r.thread.pc.At? && r.thread.pc.i < |launched| ==> l == launched[r.thread.pc.i]
    case _ => false
  }

  /** How far the attempt has come in the list. */
  function Reached(r: Runner, launched: seq<bool>): nat
    requires r.thread.Live? && |launched| == |r.origin|
  {
    match r.thread.pc
    case At(i) => i
    case JoinOne(i) => i + 1
    case _ => Passed(r.origin, launched)
  }

  /** Each task is pending, or settled when it is among the first n, or else as at the start. */
  ghost predicate Mixed(tasks: seq<Status>, pending: set<nat>, n: nat,
                        origin: seq<Status>, launched: seq<bool>, endings: seq<Ending>)
    requires |launched| == |endings| == |origin| == |tasks|
  {
    && (forall i | i in pending :: i < n && i < |origin| && Runnable(origin[i]))
    && (forall j | 0 <= j < |tasks| ::
          tasks[j] == if j in pending then Busy else if j < n then Settled(origin, launched, endings, j) else origin[j])
  }

  ghost predicate Partly(r: Runner, launched: seq<bool>, endings: seq<Ending>) {
    && |launched| == |endings| == |r.origin| == |r.tasks|
    && r.thread.Live?
    && var n := Reached(r, launched);
    && n <= Passed(r.origin, launched)
    && r.started == Starts(r.origin, n)
    && (r.mode == Parallel ==> r.stored == r.started)
    && Mixed(r.tasks, r.pending, n, r.origin, launched, endings)
  }

  /** The state of an attempt between its Head and its Reset. */
  ghost predicate Attempting(r: Runner, launched: seq<bool>, endings: seq<Ending>) {
    && r.thread.Live?
    && Partly(r, launched, endings)
    && Owned(r)
    && r.thread.pc != Head && r.thread.pc != Test
    && (r.thread.completion <==> r.thread.pc.At? || r.thread.pc.JoinOne? || Passed(r.origin, launched) == |r.origin|)
    && (r.thread.again <==> r.repeating && r.thread.completion)
  }

  lemma EndedGoes(r: Runner, launched: seq<bool>, endings: seq<Ending>, i: nat)
    requires Attempting(r, launched, endings) && i in r.pending && i < |endings|
    ensures Attempting(Step(r, Finish(i, endings[i])), launched, endings)
  {
    hide Passed, Starts;
    var q := Step(r, Finish(i, endings[i]));
    assert Settled(r.origin, launched, endings, i) == Ended(endings[i]);
  }

  /** The list loop at a task. */
  lemma TaskGoes(r: Runner, launched: seq<bool>, endings: seq<Ending>, i: nat)
    requires Attempting(r, launched, endings) && r.thread.pc == At(i) && i < |r.tasks|
    ensures Partly(AtTask(r, i, launched[i]), launched, endings)
    ensures AtTask(r, i, launched[i]).thread.completion <==> !Stops(r.tasks[i], launched[i])
    ensures Stops(r.tasks[i], launched[i]) <==> Passed(r.origin, launched) == i
  {
    hide Passed, Owned;
    if Runnable(r.tasks[i]) && launched[i] {
      TaskStarts(r, launched, endings, i);
    }
  }

  lemma TaskStarts(r: Runner, launched: seq<bool>, endings: seq<Ending>, i: nat)
    requires Attempting(r, launched, endings) && r.thread.pc == At(i) && i < |r.tasks| && Runnable(r.tasks[i])
      && launched[i]
    ensures Partly(AtTask(r, i, true), launched, endings)
  {
    hide Passed, Owned, Settled;
    var q := AtTask(r, i, true);
    assert Starts(r.origin, i + 1) == Starts(r.origin, i) + [i];
    assert Reached(q, launched) == i + 1;
  }

  /** The joins and the statements after the list. */
  lemma AfterListGoes(r: Runner, launched: seq<bool>, endings: seq<Ending>, l: bool)
    requires Attempting(r, launched, endings) && Enabled(r, Turn(l)) && !r.thread.pc.At? && r.thread.pc != Reset
    requires Owned(Go(r, l))
    ensures Attempting(Go(r, l), launched, endings)
  {
    hide Passed, Starts, Settled, Owned;
  }

  lemma ListEnds(r: Runner, launched: seq<bool>, endings: seq<Ending>, l: bool)
    requires Attempting(r, launched, endings) && r.thread.pc == At(|r.tasks|)
    ensures Partly(AtTask(r, |r.tasks|, l), launched, endings) && Passed(r.origin, launched) == |r.origin|
  {
    hide Passed, Starts, Settled, Owned;
  }

  lemma ListGoes(r: Runner, launched: seq<bool>, endings: seq<Ending>, l: bool)
    requires Attempting(r, launched, endings) && r.thread.pc.At?
      && (r.thread.pc.i < |launched| ==> l == launched[r.thread.pc.i])
    requires Owned(AtTask(r, r.thread.pc.i, l))
    ensures Attempting(AtTask(r, r.thread.pc.i, l), launched, endings)
  {
    hide Passed, Starts, Settled, Owned, Partly, Stops, Runnable;
    var i := r.thread.pc.i;
    AtReach(r, launched, endings);
    if i < |r.tasks| {
      TaskGoes(r, launched, endings, i);
    } else {
      ListEnds(r, launched, endings, l);
    }
  }

  lemma AtReach(r: Runner, launched: seq<bool>, endings: seq<Ending>)
    requires Attempting(r, launched, endings) && r.thread.pc.At?
    ensures r.thread.pc.i <= |r.tasks| == |r.origin| == |launched| == |endings| && r.thread.completion
    ensures Reached(r, launched) <= Passed(r.origin, launched)
  {
  }

  lemma AttemptGoes(r: Runner, launched: seq<bool>, endings: seq<Ending>, a: Action)
    requires Attempting(r, launched, endings) && Enabled(r, a) && Follows(r, a, launched, endings)
      && r.thread.pc != Reset
    ensures Attempting(Step(r, a), launched, endings)
  {
    StepOwned(r, a);
    if a.Finish? {
      EndedGoes(r, launched, endings, a.i);
    } else if r.thread.pc.At? {
      ListGoes(r, launched, endings, a.launched);
    } else {
      AfterListGoes(r, launched, endings, a.launched);
    }
    hide Attempting, Owned;
  }

  /** The steps of one attempt, in any order in which its processes may end. */
  ghost predicate CanAttempt(r: Runner, actions: seq<Action>, launched: seq<bool>, endings: seq<Ending>)
    decreases |actions|
  {
    actions == [] ||
    (var a := actions[0];
     && r.thread.Live? && r.thread.pc != Test
     && Enabled(r, a) && Follows(r, a, launched, endings)
     && CanAttempt(Step(r, a), actions[1..], launched, endings))
  }

  ghost function Attempted(r: Runner, actions: seq<Action>, launched: seq<bool>, endings: seq<Ending>): Runner
    requires CanAttempt(r, actions, launched, endings)
    decreases |actions|
  {
    if actions == [] then r else Attempted(Step(r, actions[0]), actions[1..], launched, endings)
  }

  /** The statuses an attempt leaves; one that completes in repeat mode makes all tasks ready again. */
  function LeftBy(tasks: seq<Status>, repeating: bool, launched: seq<bool>, endings: seq<Ending>): (s: seq<Status>)
    requires |launched| == |endings| == |tasks|
    ensures |s| == |tasks|
  {
    if Passed(tasks, launched) == |tasks|
        && repeating then seq(|tasks|, _ => Ready) else Settlement(tasks, launched, endings)
  }

  /** Every task was passed, and every task is completed afterwards. */
  predicate Succeeds(tasks: seq<Status>, launched: seq<bool>, endings: seq<Ending>)
    requires |launched| == |endings| == |tasks|
  {
    Passed(tasks, launched) == |tasks| && AllAre(Settlement(tasks, launched, endings), Completed)
  }

  /** What one attempt does: the same tasks started, statuses and counters in both modes. */
  function Outcome(b: Runner, launched: seq<bool>, endings: seq<Ending>): Runner
    requires b.thread.Live? && |launched| == |endings| == |b.tasks|
  {
    var n := Passed(b.tasks, launched);
    var done := n == |b.tasks|;
    b.(thread := Live(Test, done, done && b.repeating),
       tasks := LeftBy(b.tasks, b.repeating, launched, endings),
       attempts := b.attempts + 1,
       completions := b.completions + (if done then 1 else 0),
       successes := b.successes + (if Succeeds(b.tasks, launched, endings) then 1 else 0),
       results := b.results + (if done then [Settlement(b.tasks, launched, endings)] else []),
       origin := b.tasks,
       started := Starts(b.tasks, n),
       stored := if b.mode == Parallel then Starts(b.tasks, n) else [])
  }

  /** The counters, in an attempt that began in state b. */
  ghost predicate Counting(r: Runner, b: Runner) {
    && r.thread.Live? && r.thread.pc != Head && r.thread.pc != Test
    && var done := r.thread.completion;
    && r.mode == b.mode && r.repeating == b.repeating && r.created == b.created && r.origin == b.tasks
    && r.attempts == b.attempts + 1
    && r.completions == b.completions + (if r.thread.pc in {Check, Reset} && done then 1 else 0)
    && r.results == b.results + (if r.thread.pc in {Check, Reset} && done then [r.tasks] else [])
    && r.successes == b.successes + (if r.thread.pc == Reset && done && AllAre(r.tasks, Completed) then 1 else 0)
  }

  lemma CountingGoes(r: Runner, b: Runner, a: Action)
    requires Counting(r, b) && Owned(r) && Enabled(r, a) && (a.Turn? || a.Finish?) && r.thread.pc != Reset
    ensures Counting(Step(r, a), b)
  {
    DerivedCompleted(r.tasks);
    hide Derived, AllAre;
  }

  lemma OutcomeReached(r: Runner, b: Runner, launched: seq<bool>, endings: seq<Ending>, l: bool)
    requires Attempting(r, launched, endings) && Counting(r, b) && r.thread.pc == Reset
    requires b.thread.Live? && b.pending == {} && |launched| == |endings| == |b.tasks|
    ensures Go(r, l) == Outcome(b, launched, endings)
  {
    hide Passed, Starts, AllAre;
    assert r.tasks == Settlement(b.tasks, launched, endings);
  }

  lemma {:induction false} AttemptMeaning(r: Runner, b: Runner, actions: seq<Action>, launched: seq<bool>,
                                          endings: seq<Ending>)
    requires Attempting(r, launched, endings) && Counting(r, b) && CanAttempt(r, actions, launched, endings)
    requires b.thread.Live? && b.pending == {} && |launched| == |endings| == |b.tasks|
    requires var q := Attempted(r, actions, launched, endings); q.thread.Live? && q.thread.pc == Test
    ensures Attempted(r, actions, launched, endings) == Outcome(b, launched, endings)
    decreases |actions|
  {
    hide Attempting, Owned, Outcome;
    assert Owned(r) by { AttemptOwns(r, launched, endings); }
    assert actions != [];
    var a := actions[0];
    if r.thread.pc == Reset {
      assert a.Turn? by { NothingPending(r, a); }
      OutcomeReached(r, b, launched, endings, a.launched);
      assert actions[1..] == [];
    } else {
      AttemptGoes(r, launched, endings, a);
      CountingGoes(r, b, a);
      hide Counting, Step, Follows, Enabled;
      AttemptMeaning(Step(r, a), b, actions[1..], launched, endings);
    }
  }

  lemma AttemptOwns(r: Runner, launched: seq<bool>, endings: seq<Ending>)
    requires Attempting(r, launched, endings)
    ensures Owned(r)
  {
  }

  lemma NothingPending(r: Runner, a: Action)
    requires Owned(r) && r.thread.Live? && r.thread.pc == Reset && Enabled(r, a) && !a.Cancel?
    ensures a.Turn?
  {
  }

  /** An attempt that runs to its end has one outcome, whatever the mode and the order in which its processes end. */
  lemma AttemptDetermined(b: Runner, actions: seq<Action>, launched: seq<bool>, endings: seq<Ending>)
    requires b.thread.Live? && b.thread.pc == Head && b.thread.again == b.repeating && Owned(b)
    requires |launched| == |endings| == |b.tasks| && CanAttempt(b, actions, launched, endings)
    requires var q := Attempted(b, actions, launched, endings); q.thread.Live? && q.thread.pc == Test
    ensures Attempted(b, actions, launched, endings) == Outcome(b, launched, endings)
  {
    hide Outcome;
    var a := actions[0];
    assert a.Turn?;
    AttemptBegins(b, launched, endings, a.launched);
    AttemptMeaning(Step(b, a), b, actions[1..], launched, endings);
  }

  lemma AttemptBegins(b: Runner, launched: seq<bool>, endings: seq<Ending>, l: bool)
    requires b.thread.Live? && b.thread.pc == Head && b.thread.again == b.repeating && Owned(b)
    requires |launched| == |endings| == |b.tasks|
    ensures Attempting(Go(b, l), launched, endings) && Counting(Go(b, l), b)
  {
  }

  /** Parallel refines sequential: from the same statuses, with the same outcome for each task, a parallel attempt under
      every finishing order starts the same tasks and leaves the same statuses and counters as a sequential one. */
  lemma ParallelRefinesSequential(b: Runner, inOrder: seq<Action>, anyOrder: seq<Action>, launched: seq<bool>,
                                  endings: seq<Ending>)
    requires b.mode == Sequential && b.thread.Live? && b.thread.pc == Head && b.thread.again == b.repeating && Owned(b)
    requires |launched| == |endings| == |b.tasks|
    requires CanAttempt(b, inOrder, launched, endings)
    requires CanAttempt(b.(mode := Parallel), anyOrder, launched, endings)
    requires var q := Attempted(b, inOrder, launched, endings); q.thread.Live? && q.thread.pc == Test
    requires var q := Attempted(b.(mode := Parallel), anyOrder, launched, endings);
      q.thread.Live? && q.thread.pc == Test
    ensures var s := Attempted(b, inOrder, launched, endings);
      Attempted(b.(mode := Parallel), anyOrder, launched, endings) == s.(mode := Parallel, stored := s.started)
  {
    AttemptDetermined(b, inOrder, launched, endings);
    AttemptDetermined(b.(mode := Parallel), anyOrder, launched, endings);
  }
}
