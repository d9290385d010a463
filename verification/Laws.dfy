/** What an attempt does, said of each task by its status, by whether task_run succeeds and by how its process ends. */
module Laws {
  import opened Tasks
  import opened Attempts

  /** The status in which the end of a process leaves its task. */
  predicate EndsAs(e: Ending, s: Status) {
    && (s == Completed <==> e.Exited? && e.code == 0)
    && (s == NotReady <==> e.Exited? && e.code != 0)
    && (s == Incomplete <==> e.Signalled? && e.signo == 2)
    && (s == Ready <==> e.Signalled? && e.signo != 2)
    && (s == Busy <==> e.Neither?)
  }

  lemma EndedLaw(e: Ending)
    ensures EndsAs(e, Ended(e))
  {
  }

  /** The derived job status: running if a task is, else not ready if one is, else incomplete if one is, else ready if
      one is, and completed when every task is. */
  lemma DerivedLaw(tasks: seq<Status>)
    ensures Derived(tasks) == Busy <==> exists k :: 0 <= k < |tasks| && tasks[k] == Busy
    ensures Derived(tasks) == NotReady <==> Busy !in tasks && exists k :: 0 <= k < |tasks| && tasks[k] == NotReady
    ensures Derived(tasks) == Incomplete <==>
      Busy !in tasks && NotReady !in tasks && exists k :: 0 <= k < |tasks| && tasks[k] == Incomplete
    ensures Derived(tasks) == Completed <==> forall k | 0 <= k < |tasks| :: tasks[k] == Completed
  {
    DerivedCompleted(tasks);
  }

  /** The list loop goes past the first n tasks and breaks off at the next one, if there is one: it starts a task that
      is ready or incomplete, passes one that is completed, and breaks off at any other and where task_run fails. */
  predicate GoesPast(tasks: seq<Status>, launched: seq<bool>, n: nat)
    requires |launched| == |tasks|
  {
    && n <= |tasks|
    && (forall j | 0 <= j < n ::
          tasks[j] == Completed || ((tasks[j] == Ready || tasks[j] == Incomplete) && launched[j]))
    && (n < |tasks| ==>
          tasks[n] == NotReady || tasks[n] == Busy
          || ((tasks[n] == Ready || tasks[n] == Incomplete) && !launched[n]))
  }

  /** The task is among the first n and was ready or incomplete. */
  predicate IsStarted(tasks: seq<Status>, n: nat, j: nat)
    requires j < |tasks|
  {
    j < n && (tasks[j] == Ready || tasks[j] == Incomplete)
  }

  /** The statuses when all started processes have ended: a started task has the one its ending decides, any other keeps
      the one it had. */
  predicate Settles(tasks: seq<Status>, endings: seq<Ending>, n: nat, settled: seq<Status>)
    requires |endings| == |tasks|
  {
    && |settled| == |tasks|
    && forall j | 0 <= j < |tasks| ::
         if IsStarted(tasks, n, j) then EndsAs(endings[j], settled[j]) else settled[j] == tasks[j]
  }

  /** The law of one attempt: it completes when the list loop goes past every task, succeeds when moreover every task is
      completed, and makes every task ready again when it completes in repeat mode. */
  ghost predicate Lawful(tasks: seq<Status>, launched: seq<bool>, endings: seq<Ending>, repeating: bool,
                         after: seq<Status>, completed: bool, succeeded: bool)
    requires |launched| == |endings| == |tasks|
  {
    exists n: nat, settled: seq<Status> ::
      && GoesPast(tasks, launched, n) && Settles(tasks, endings, n, settled)
      && (completed <==> n == |tasks|)
      && (succeeded <==> completed && forall j | 0 <= j < |tasks| :: settled[j] == Completed)
      && |after| == |tasks|
      && forall j | 0 <= j < |tasks| :: after[j] == if completed && repeating then Ready else settled[j]
  }

  lemma PassedLaw(tasks: seq<Status>, launched: seq<bool>)
    requires |launched| == |tasks|
    ensures GoesPast(tasks, launched, Passed(tasks, launched))
  {
    hide Passed;
    var n := Passed(tasks, launched);
    assert forall j | 0 <= j < n :: !Stops(tasks[j], launched[j]);
    assert n < |tasks| ==> Stops(tasks[n], launched[n]);
  }

  lemma SettlementLaw(tasks: seq<Status>, launched: seq<bool>, endings: seq<Ending>)
    requires |launched| == |endings| == |tasks|
    ensures Settles(tasks, endings, Passed(tasks, launched), Settlement(tasks, launched, endings))
  {
    hide Passed, EndsAs, Ended;
    forall j | 0 <= j < |tasks| ensures EndsAs(endings[j], Ended(endings[j])) {
      EndedLaw(endings[j]);
    }
  }

  lemma LeftByLaw(tasks: seq<Status>, launched: seq<bool>, endings: seq<Ending>, repeating: bool)
    requires |launched| == |endings| == |tasks|
    ensures Lawful(tasks, launched, endings, repeating, LeftBy(tasks, repeating, launched, endings),
                   Passed(tasks, launched) == |tasks|, Succeeds(tasks, launched, endings))
  {
    hide Passed, Settlement, GoesPast, Settles;
    PassedLaw(tasks, launched);
    SettlementLaw(tasks, launched, endings);
    var n, settled := Passed(tasks, launched), Settlement(tasks, launched, endings);
    assert GoesPast(tasks, launched, n) && Settles(tasks, endings, n, settled);
  }

  /** After an attempt that completes, and does not repeat, each task that was ready or incomplete is as its process
      ended, and each completed one is completed still. */
  predicate AsEnded(tasks: seq<Status>, endings: seq<Ending>, after: seq<Status>) {
    && |endings| == |tasks| == |after|
    && forall j | 0 <= j < |tasks| ::
         && (tasks[j] == Ready || tasks[j] == Incomplete ==> EndsAs(endings[j], after[j]))
         && (tasks[j] == Completed ==> after[j] == Completed)
  }

  lemma DoneLaw(tasks: seq<Status>, launched: seq<bool>, endings: seq<Ending>, after: seq<Status>, succeeded: bool)
    requires |launched| == |endings| == |tasks| && Lawful(tasks, launched, endings, false, after, true, succeeded)
    ensures AsEnded(tasks, endings, after)
  {
    hide EndsAs;
    var n: nat, settled: seq<Status> :|
      && GoesPast(tasks, launched, n) && Settles(tasks, endings, n, settled) && n == |tasks|
      && |after| == |tasks| && forall j | 0 <= j < |tasks| :: after[j] == settled[j];
    forall j | 0 <= j < |tasks|
      ensures tasks[j] == Ready || tasks[j] == Incomplete ==> EndsAs(endings[j], after[j])
      ensures tasks[j] == Completed ==> after[j] == Completed
    {
      assert after[j] == settled[j] && (IsStarted(tasks, n, j) <==> tasks[j] == Ready || tasks[j] == Incomplete);
    }
  }

  /** Where the list loop breaks off is decided by the statuses and by task_run alone. */
  lemma GoesPastOnce(tasks: seq<Status>, launched: seq<bool>, m: nat, n: nat)
    requires |launched| == |tasks| && GoesPast(tasks, launched, m) && GoesPast(tasks, launched, n)
    ensures m == n
  {
  }

  lemma {:induction false} StartsLaw(tasks: seq<Status>, k: nat, j: nat)
    requires k <= |tasks| && j < |tasks|
    ensures j in Starts(tasks, k) <==> IsStarted(tasks, k, j)
    decreases k
  {
    if k > 0 {
      StartsLaw(tasks, k - 1, j);
    }
  }

  /** A finished attempt in either mode, in whatever order its processes ended, follows the law, and has started exactly
      the tasks that were ready or incomplete before the place where the list loop broke off. */
  lemma AttemptLaw(b: Runner, actions: seq<Action>, launched: seq<bool>, endings: seq<Ending>)
    requires b.thread.Live? && b.thread.pc == Head && b.thread.again == b.repeating && Owned(b)
    requires |launched| == |endings| == |b.tasks| && CanAttempt(b, actions, launched, endings)
    requires var q := Attempted(b, actions, launched, endings); q.thread.Live? && q.thread.pc == Test
    ensures var q := Attempted(b, actions, launched, endings);
      && q.attempts == b.attempts + 1
      && (q.completions == b.completions || q.completions == b.completions + 1)
      && (q.successes == b.successes || q.successes == b.successes + 1)
      && Lawful(b.tasks, launched, endings, b.repeating, q.tasks,
                q.completions == b.completions + 1, q.successes == b.successes + 1)
      && (q.thread.again <==> b.repeating && q.completions == b.completions + 1)
    ensures var q := Attempted(b, actions, launched, endings);
      forall n, j | 0 <= n && GoesPast(b.tasks, launched, n) && 0 <= j < |b.tasks| ::
        j in q.started <==> j < n && (b.tasks[j] == Ready || b.tasks[j] == Incomplete)
  {
    hide Passed, LeftBy, Succeeds, Settlement, Lawful, GoesPast, Starts;
    AttemptDetermined(b, actions, launched, endings);
    LeftByLaw(b.tasks, launched, endings, b.repeating);
    PassedLaw(b.tasks, launched);
    var q := Attempted(b, actions, launched, endings);
    forall n, j | 0 <= n && GoesPast(b.tasks, launched, n) && 0 <= j < |b.tasks|
      ensures j in q.started <==> j < n && (b.tasks[j] == Ready || b.tasks[j] == Incomplete)
    {
      GoesPastOnce(b.tasks, launched, n, Passed(b.tasks, launched));
      StartsLaw(b.tasks, n, j);
    }
  }
}
