/** The end of every attempt, and runs in repeat mode that nobody cancels. */
module Repeating {
  import opened Tasks
  import opened Attempts

  // Attempts end

  /** A bound on the steps left in the attempt. */
  function StepsLeft(r: Runner): int
    requires r.thread.Live?
  {
    var n := |r.tasks|;
    |r.pending| + match r.thread.pc
                  case Head => 4 * n + 7
                  case At(i) => 3 * (n - i) + n + 6
                  case JoinOne(i) => 3 * (n - i) + n + 4
                  case JoinAll(k) => |r.stored| - k + 5
                  case Count => 4
                  case Check => 3
                  case Reset => 2
                  case Test => 1
  }

  lemma StepShortens(r: Runner, a: Action)
    requires Owned(r) && r.thread.Live? && r.thread.pc != Test && Enabled(r, a) && (a.Turn? || a.Finish?)
    ensures Step(r, a).thread.Live? && StepsLeft(Step(r, a)) < StepsLeft(r)
  {
    if a.Finish? {
      assert r.pending == (r.pending - {a.i}) + {a.i};
    } else if r.thread.pc.At? {
      ListShortens(r, r.thread.pc.i, a.launched);
    } else {
      hide Owned;
      OwnedSizes(r);
    }
  }

  lemma ListShortens(r: Runner, i: nat, launched: bool)
    requires Owned(r) && r.thread.Live? && r.thread.pc == At(i)
    ensures AtTask(r, i, launched).thread.Live? && StepsLeft(AtTask(r, i, launched)) < StepsLeft(r)
  {
    OwnedSizes(r);
    OneMore(r.pending, i);
    hide Owned, Runnable;
  }

  lemma OneMore(s: set<nat>, i: nat)
    ensures |s + {i}| <= |s| + 1
  {
  }

  lemma OwnedSizes(r: Runner)
    requires Owned(r)
    ensures |r.stored| <= |r.tasks|
    ensures r.thread.Live? && r.thread.pc.At? ==> r.thread.pc.i <= |r.tasks|
    ensures r.thread.Live? && r.thread.pc.JoinOne? ==> r.thread.pc.i < |r.tasks|
  {
  }

  /** An attempt cannot go on for ever, in any order of steps. */
  lemma {:induction false} AttemptEnds(r: Runner, actions: seq<Action>, launched: seq<bool>, endings: seq<Ending>)
    requires Owned(r) && r.thread.Live? && CanAttempt(r, actions, launched, endings)
    ensures |actions| <= StepsLeft(r)
    decreases |actions|
  {
    hide Owned, Enabled, Step, StepsLeft;
    if actions != [] {
      StepOwned(r, actions[0]);
      StepShortens(r, actions[0]);
      AttemptEnds(Step(r, actions[0]), actions[1..], launched, endings);
    } else {
      Positive(r);
    }
  }

  lemma Positive(r: Runner)
    requires Owned(r) && r.thread.Live?
    ensures StepsLeft(r) > 0
  {
  }

  /** And it cannot get stuck: until its Test, the thread can go on or the process it joins can end. */
  lemma AttemptGoesOn(r: Runner, launched: seq<bool>, endings: seq<Ending>) returns (a: Action)
    requires Owned(r) && r.thread.Live? && r.thread.pc != Test && |launched| == |endings| == |r.tasks|
    ensures Enabled(r, a) && Follows(r, a, launched, endings)
  {
    match r.thread.pc
    case JoinOne(i) =>
      a := if i in r.pending then Finish(i, endings[i]) else Turn(true);
    case JoinAll(k) =>
      a := if k < |r.stored| && r.stored[k] in r.pending then Finish(r.stored[k], endings[r.stored[k]]) else Turn(true);
    case At(i) => a := Turn(i < |launched| ==> launched[i]);
    case _ => a := Turn(true);
  }

  // Repeat mode

  predicate Startable(tasks: seq<Status>, i: nat) {
    forall j | i <= j < |tasks| :: tasks[j] != NotReady && tasks[j] != Busy
  }

  /** How many of these attempts left every task completed. */
  function Successful(results: seq<seq<Status>>): nat {
    if results == [] then 0
    else Successful(results[..|results| - 1]) + if AllAre(results[|results| - 1], Completed) then 1 else 0
  }

  /** The tasks that the thread has not reached can be started, and an attempt after the first begins with all ready. */
  ghost predicate Startables(r: Runner, b: Runner) {
    match r.thread
    case Live(Head, _, _) => Startable(r.tasks, 0) && (r.attempts > b.attempts ==> AllAre(r.tasks, Ready))
    case Live(At(i), completion, _) => Startable(r.tasks, i) && completion && forall j | j in r.pending :: j < i
    case Live(JoinOne(i), completion, _) => Startable(r.tasks, i + 1) && completion
    case Live(Test, completion, again) => completion && (again ==> AllAre(r.tasks, Ready))
    case Live(_, completion, _) => completion
    case _ => true
  }

  predicate Uncounted(t: Thread) { t.Live? && (t.pc.At? || t.pc.JoinOne? || t.pc.JoinAll? || t.pc.Count?) }

  /** The counters since state b: every attempt completes, and the successes are the results with all tasks
      completed. */
  ghost predicate Tallied(r: Runner, b: Runner) {
    && r.attempts >= b.attempts
    && r.attempts - b.attempts == r.completions - b.completions + (if Uncounted(r.thread) then 1 else 0)
    && |r.results| - |b.results| == r.completions - b.completions >= 0
    && r.successes + (if r.thread.Live? && r.thread.pc == Check && AllAre(r.tasks, Completed) then 1 else 0)
       == b.successes + Successful(r.results[|b.results|..])
    && (r.thread.Live? && r.thread.pc == Check ==> r.thread.completion)
  }

  /** Nobody interferes: no cancellation, and task_run never fails. */
  predicate Quiet(a: Action) {
    a.Finish? || (a.Turn? && a.launched)
  }

  lemma StartablesGo(r: Runner, b: Runner, a: Action)
    requires Startables(r, b) && Owned(r) && r.attempts >= b.attempts && Enabled(r, a) && Quiet(a)
    ensures Startables(Step(r, a), b)
  {
    if a.Turn? && r.thread.Live? && r.thread.pc.At? {
      ListStartables(r, b, r.thread.pc.i);
    } else {
      hide AtTask;
    }
  }

  lemma ListStartables(r: Runner, b: Runner, i: nat)
    requires Startables(r, b) && r.thread.Live? && r.thread.pc == At(i)
    ensures Startables(AtTask(r, i, true), b)
  {
  }

  lemma TalliedGoes(r: Runner, b: Runner, a: Action)
    requires Startables(r, b) && Owned(r) && Tallied(r, b) && Enabled(r, a) && Quiet(a)
    ensures Tallied(Step(r, a), b)
  {
    if a.Finish? {
      FinishTallied(r, b, a.i, a.ending);
    } else if r.thread.Live? && r.thread.pc == Count {
      CountTallied(r, b, a.launched);
    } else if r.thread.Live? && r.thread.pc.At? {
      ListTallied(r, b, r.thread.pc.i);
    } else {
      OtherTallied(r, b, a);
    }
    hide Tallied, Startables, Owned;
  }

  lemma FinishTallied(r: Runner, b: Runner, i: nat, e: Ending)
    requires Owned(r) && Tallied(r, b) && i in r.pending && i < |r.tasks|
    ensures Tallied(Step(r, Finish(i, e)), b)
  {
    hide Successful, AllAre;
  }

  lemma ListTallied(r: Runner, b: Runner, i: nat)
    requires Startables(r, b) && Tallied(r, b) && r.thread.Live? && r.thread.pc == At(i)
    ensures Tallied(AtTask(r, i, true), b)
  {
    hide Successful, AllAre;
  }

  lemma OtherTallied(r: Runner, b: Runner, a: Action)
    requires Startables(r, b) && Tallied(r, b) && Enabled(r, a) && a.Turn?
    requires r.thread.Live? ==> r.thread.pc != Count && !r.thread.pc.At?
    ensures Tallied(Step(r, a), b)
  {
    DerivedCompleted(r.tasks);
    hide Derived, AllAre, Successful, AtTask;
  }

  lemma CountTallied(r: Runner, b: Runner, l: bool)
    requires Startables(r, b) && Tallied(r, b) && r.thread.Live? && r.thread.pc == Count
    ensures Tallied(Go(r, l), b)
  {
    hide AllAre, Successful, Owned, Derived;
    var n := |b.results|;
    SuccessfulPush(r.results[n..], r.tasks);
    assert (r.results + [r.tasks])[n..] == r.results[n..] + [r.tasks];
  }

  lemma SuccessfulPush(results: seq<seq<Status>>, tasks: seq<Status>)
    ensures Successful(results + [tasks]) == Successful(results) + if AllAre(tasks, Completed) then 1 else 0
  {
    hide AllAre;
    assert (results + [tasks])[..|results|] == results;
  }

  ghost predicate QuietRun(r: Runner, actions: seq<Action>)
    decreases |actions|
  {
    && CanRun(r, actions)
    && (actions == [] || (Quiet(actions[0]) && QuietRun(Step(r, actions[0]), actions[1..])))
  }

  lemma {:induction false} QuietKeeps(r: Runner, b: Runner, actions: seq<Action>)
    requires Startables(r, b) && Owned(r) && Tallied(r, b) && QuietRun(r, actions)
    ensures Startables(After(r, actions), b) && Tallied(After(r, actions), b)
    decreases |actions|
  {
    hide Startables, Owned, Tallied, Enabled, Step;
    if actions != [] {
      StartablesGo(r, b, actions[0]) by { TalliedGrows(r, b); }
      TalliedGoes(r, b, actions[0]);
      StepOwned(r, actions[0]);
      QuietKeeps(Step(r, actions[0]), b, actions[1..]);
    }
  }

  lemma TalliedGrows(r: Runner, b: Runner)
    requires Tallied(r, b)
    ensures r.attempts >= b.attempts
  {
  }

  /** An uncancelled run from statuses that can be started, in which task_run never fails: at every head of the loop
      after the first all tasks are ready, as many attempts have completed as were begun, and the successes are the
      attempts after which every task was completed. */
  lemma RepeatRun(b: Runner, actions: seq<Action>)
    requires b.thread == Live(Head, true, b.repeating) && Owned(b) && Startable(b.tasks, 0) && QuietRun(b, actions)
    ensures var r := After(b, actions);
      r.thread.Live? && r.thread.pc == Head ==>
        && (r.attempts > b.attempts ==> AllAre(r.tasks, Ready))
        && r.attempts - b.attempts == r.completions - b.completions == |r.results| - |b.results| >= 0
        && r.successes - b.successes == Successful(r.results[|b.results|..])
  {
    assert b.results[|b.results|..] == [];
    QuietKeeps(b, b, actions);
  }
}
