/** One pass of a job thread's do loop over the job's tasks in memory, in both modes. */
module JobRunners {
  import opened Bytes
  import opened Tasks
  import opened Attempts
  import opened Jobs
  import opened Laws

  /** A started task, how its process will end, and whether it has ended. */
  datatype TaskRunner = TaskRunner(task: Task, ending: Ending, ended: bool)

  class JobRunner {
    const job: Job
    var attempts: nat
    var completions: nat
    var successes: nat
    var taskCount: nat
    var taskRunners: array<Option<TaskRunner>>
    /** The tasks that this attempt has started, as list positions, and those whose process has not ended. */
    ghost var started: seq<nat>
    ghost var pending: set<nat>

    ghost predicate Ready()
      reads this`taskRunners, job`size, job`head, job`tail, job`spine, job.spine`next
    {
      job.Valid() && job.Distinct() && taskRunners.Length == job.size == |job.spine| > 0
    }

    /** The stored runners are those of the started tasks, each knows its task's ending, and the pending are not
        ended. */
    ghost predicate Stores(n: nat, endings: seq<Ending>)
      reads this`taskRunners, this`taskCount, this`started, this`pending, taskRunners, job`spine
    {
      && taskCount == |started| <= n <= taskRunners.Length == |job.spine| == |endings|
      && (forall k | 0 <= k < taskCount :: started[k] < n && Holds(k, endings))
      && (forall j, k | 0 <= j < k < taskCount :: started[j] != started[k])
      && (forall i | i in pending :: i in started)
    }

    ghost predicate Holds(k: nat, endings: seq<Ending>)
      requires k < taskRunners.Length && k < |started| && started[k] < |job.spine| == |endings|
      reads this`taskRunners, this`started, this`pending, taskRunners, job`spine
    {
      var i := started[k];
      taskRunners[k] == Some(TaskRunner(job.spine[i].task, endings[i], i !in pending))
    }

    constructor (job: Job)
      requires job.Valid() && job.Distinct() && job.size > 0
      ensures this.job == job && Ready() && fresh(taskRunners)
      ensures attempts == completions == successes == taskCount == 0
    {
      this.job := job;
      attempts, completions, successes, taskCount := 0, 0, 0, 0;
      taskRunners := new Option<TaskRunner>[job.size](_ => None);
    }

    /** The counters, and the statuses for the next attempt. */
    method Conclude(completion: bool, again: bool)
      requires Ready()
      modifies this`completions, this`successes, job`status, (set t <- job.TaskList())`status
      ensures Ready()
      ensures completions == old(completions) + (if completion then 1 else 0)
      ensures successes == old(successes) + (if completion && AllAre(old(job.Statuses()), Completed) then 1 else 0)
      ensures job.Statuses() == if completion && again then seq(job.size, _ => Status.Ready) else old(job.Statuses())
    {
      hide Derived, AllAre, Job.Valid, Job.Distinct, Job.NodeAt;
      if completion {
        completions := completions + 1;
        DerivedCompleted(job.Statuses());
        var s := job.GetStatus();
        if s == Completed {
          successes := successes + 1;
        }
        if again {
          job.ResetStatus();
          AllSame(job.Statuses(), Status.Ready);
        }
      }
    }

    /** task_run and task_runner_wait */
    method RunAndWait(task: Task, ending: Ending, ghost i: nat)
      requires Ready() && i < job.size && task == job.spine[i].task
      modifies task`status
      ensures job.Statuses() == old(job.Statuses())[i := Ended(ending)]
    {
      hide Job.Valid, Job.Distinct, Job.NodeAt, Ended;
      ghost var before := job.Statuses();
      job.SetTaskStatus(task, Busy, i);
      job.SetTaskStatus(task, Ended(ending), i);
      assert before[i := Busy][i := Ended(ending)] == before[i := Ended(ending)];
    }

    /** job_thread_sequential, one attempt: task_run succeeds as launched says, and each process ends as endings
        says. */
    method AttemptSequential(launched: seq<bool>, endings: seq<Ending>) returns (again: bool)
      requires Ready() && |launched| == |endings| == job.size
      modifies this`attempts, this`completions, this`successes, this`taskCount, job`status,
          (set t <- job.TaskList())`status
      ensures Ready()
      ensures var before := old(job.Statuses());
        var done := Passed(before, launched) == job.size;
        && job.Statuses() == LeftBy(before, job.repeating, launched, endings)
        && attempts == old(attempts) + 1
        && completions == old(completions) + (if done then 1 else 0)
        && successes == old(successes) + (if Succeeds(before, launched, endings) then 1 else 0)
        && again == (done && job.repeating)
      ensures Lawful(old(job.Statuses()), launched, endings, job.repeating, job.Statuses(),
                     completions == old(completions) + 1, successes == old(successes) + 1)
      ensures completions == old(completions) + 1 && !job.repeating ==>
        AsEnded(old(job.Statuses()), endings, job.Statuses())
    {
      hide Derived, Ended, AllAre, Passed, Settlement, Lawful, AsEnded, Job.Valid, Job.Distinct, Job.NodeAt;
      ghost var before := job.Statuses();
      attempts := attempts + 1;
      taskCount := 0;
      var completion := RunList(launched, endings);
      again := completion && job.repeating;
      Conclude(completion, again);
      Conforms(before, launched, endings, completion);
    }

    lemma Conforms(before: seq<Status>, launched: seq<bool>, endings: seq<Ending>, completed: bool)
      requires |launched| == |endings| == |before| && (completed <==> Passed(before, launched) == |before|)
      ensures Lawful(before, launched, endings, job.repeating, LeftBy(before, job.repeating, launched, endings),
        completed,
                     Succeeds(before, launched, endings))
      ensures completed && !job.repeating ==>
        AsEnded(before, endings, LeftBy(before, job.repeating, launched, endings))
    {
      hide Passed, LeftBy, Succeeds, Lawful, AsEnded;
      LeftByLaw(before, launched, endings, job.repeating);
      if completed && !job.repeating {
        DoneLaw(before, launched, endings, LeftBy(before, job.repeating, launched, endings),
                Succeeds(before, launched, endings));
      }
    }

    /** The list loop of job_thread_sequential; false when it broke off. */
    method RunList(launched: seq<bool>, endings: seq<Ending>) returns (completion: bool)
      requires Ready() && |launched| == |endings| == job.size
      modifies (set t <- job.TaskList())`status
      ensures Ready() && job.Statuses() == Settlement(old(job.Statuses()), launched, endings)
      ensures completion <==> Passed(old(job.Statuses()), launched) == job.size
    {
      hide Derived, Ended, AllAre, Mixed, Passed, Settlement, Settled, TasksOf, StatusesOf;
      hide Job.Valid, Job.Distinct, Job.NodeAt;
      completion := true;
      var curr := job.head;
      ghost var before := job.Statuses();
      var i := 0;
      job.Links(0);
      MixedStart(before, launched, endings);
      while curr != null
        invariant i <= job.size && curr == job.NodeAt(i) && Ready()
        invariant completion && i <= Passed(before, launched)
        invariant Mixed(job.Statuses(), {}, i, before, launched, endings)
        decreases job.size - i
      {
        job.Links(i);
        MixedNext(job.Statuses(), i, before, launched, endings);
        var status := curr.task.status;
        if status == Status.Ready || status == Incomplete {
          if !launched[i] {
            completion := false;
            break;
          }
          RunAndWait(curr.task, endings[i], i);
        }
        if status == NotReady || status == Busy {
          completion := false;
          break;
        }
        curr := curr.next;
        i := i + 1;
      }
      job.Links(i);
      MixedEnd(job.Statuses(), i, before, launched, endings);
    }

    /** task_run, and its runner stored. */
    method Launch(task: Task, ending: Ending, ghost i: nat, ghost endings: seq<Ending>)
      requires Ready() && Stores(i, endings) && i < job.size && task == job.spine[i].task && ending == endings[i]
      modifies task`status, this`taskCount, this`started, this`pending, taskRunners
      ensures Stores(i + 1, endings)
      ensures job.Statuses() == old(job.Statuses())[i := Busy]
      ensures started == old(started) + [i] && pending == old(pending) + {i}
    {
      hide Job.Valid, Job.Distinct, Job.NodeAt;
      job.SetTaskStatus(task, Busy, i);
      taskRunners[taskCount] := Some(TaskRunner(task, ending, false));
      taskCount := taskCount + 1;
      started := started + [i];
      pending := pending + {i};
    }

    /** The process of runner k ends, if it has not ended yet. */
    method EndProcess(k: nat, ghost n: nat, ghost endings: seq<Ending>)
      requires Ready() && Stores(n, endings) && k < taskCount
      modifies this`pending, taskRunners, (set t <- job.TaskList())`status
      ensures Stores(n, endings) && pending == old(pending) - {started[k]}
      ensures job.Statuses() ==
        if started[k] in old(pending) then old(job.Statuses())[started[k] := Ended(endings[started[k]])]
            else old(job.Statuses())
    {
      hide Job.Valid, Job.Distinct, Job.NodeAt, Ended;
      assert Holds(k, endings);
      var runner := taskRunners[k].value;
      if !runner.ended {
        assert runner.task == job.TaskList()[started[k]];
        job.SetTaskStatus(runner.task, Ended(runner.ending), started[k]);
        taskRunners[k] := Some(runner.(ended := true));
      }
      pending := pending - {started[k]};
    }

    /** What holds while the list loop is before task n, or has left the list there. */
    ghost predicate Halfway(n: nat, before: seq<Status>, launched: seq<bool>, endings: seq<Ending>)
      reads this`taskRunners, this`taskCount, this`started, this`pending, taskRunners
      reads job`size, job`head, job`tail, job`spine, job.spine`next, job.TaskList()
    {
      && Ready()
      && |launched| == |endings| == |before| == job.size
      && n <= Passed(before, launched)
      && Stores(n, endings)
      && Mixed(job.Statuses(), pending, n, before, launched, endings)
    }

    /** The processes of some of the stored runners end now. */
    method EndSome(which: seq<nat>, ghost n: nat, ghost before: seq<Status>, ghost launched: seq<bool>,
                   ghost endings: seq<Ending>)
      requires Halfway(n, before, launched, endings)
      modifies this`pending, taskRunners, (set t <- job.TaskList())`status
      ensures Halfway(n, before, launched, endings)
    {
      for j := 0 to |which|
        invariant Halfway(n, before, launched, endings)
      {
        if which[j] < taskCount {
          EndHalfway(which[j], n, before, launched, endings);
        }
      }
    }

    method EndHalfway(k: nat, ghost n: nat, ghost before: seq<Status>, ghost launched: seq<bool>,
                      ghost endings: seq<Ending>)
      requires Halfway(n, before, launched, endings) && k < taskCount
      modifies this`pending, taskRunners, (set t <- job.TaskList())`status
      ensures Halfway(n, before, launched, endings) && pending == old(pending) - {started[k]}
    {
      hide Mixed, Passed, Job.Valid, Job.Distinct, Job.NodeAt, Ended, Holds;
      MixedFinish(job.Statuses(), pending, started[k], n, before, launched, endings);
      EndProcess(k, n, endings);
    }

    /** job_thread_parallel, one attempt: after the list loop has passed task i, the runners in early[i] end, and the
        others end while they are joined. Whatever early is, the attempt does what a sequential one does. */
    method AttemptParallel(launched: seq<bool>, endings: seq<Ending>, early: seq<seq<nat>>) returns (again: bool)
      requires Ready() && |launched| == |endings| == |early| == job.size
      modifies this`attempts, this`completions, this`successes, this`taskCount, this`started, this`pending, taskRunners
      modifies job`status, (set t <- job.TaskList())`status
      ensures Ready()
      ensures var before := old(job.Statuses());
        var done := Passed(before, launched) == job.size;
        && job.Statuses() == LeftBy(before, job.repeating, launched, endings)
        && attempts == old(attempts) + 1
        && completions == old(completions) + (if done then 1 else 0)
        && successes == old(successes) + (if Succeeds(before, launched, endings) then 1 else 0)
        && again == (done && job.repeating)
      ensures Lawful(old(job.Statuses()), launched, endings, job.repeating, job.Statuses(),
                     completions == old(completions) + 1, successes == old(successes) + 1)
      ensures completions == old(completions) + 1 && !job.repeating ==>
        AsEnded(old(job.Statuses()), endings, job.Statuses())
    {
      hide Derived, Ended, AllAre, Passed, Settlement, Lawful, AsEnded, Job.Valid, Job.Distinct, Job.NodeAt;
      ghost var before := job.Statuses();
      attempts := attempts + 1;
      var completion := RunTogether(launched, endings, early);
      again := completion && job.repeating;
      Conclude(completion, again);
      Conforms(before, launched, endings, completion);
    }

    /** The list loop and the wait loop of job_thread_parallel; false when the list loop broke off. */
    method RunTogether(launched: seq<bool>, endings: seq<Ending>, early: seq<seq<nat>>) returns (completion: bool)
      requires Ready() && |launched| == |endings| == |early| == job.size
      modifies this`taskCount, this`started, this`pending, taskRunners, (set t <- job.TaskList())`status
      ensures Ready() && job.Statuses() == Settlement(old(job.Statuses()), launched, endings)
      ensures completion <==> Passed(old(job.Statuses()), launched) == job.size
    {
      hide Passed, Settlement, StatusesOf, Job.Valid, Job.Distinct, Job.NodeAt, Holds, Halfway, Stores;
      ghost var before := Forget(launched, endings);
      completion := LaunchAll(launched, endings, early, before);
      JoinAll(Passed(before, launched), before, launched, endings);
    }

    /** task_count = 0. */
    method Forget(ghost launched: seq<bool>, ghost endings: seq<Ending>) returns (ghost before: seq<Status>)
      requires Ready() && |launched| == |endings| == job.size
      modifies this`taskCount, this`started, this`pending
      ensures before == job.Statuses() == old(job.Statuses()) && Halfway(0, before, launched, endings)
    {
      hide Mixed, Passed, Settled, Job.Valid, Job.Distinct, Job.NodeAt, Holds, Halfway;
      before := job.Statuses();
      taskCount := 0;
      started, pending := [], {};
      HalfwayStart(before, launched, endings);
    }

    /** The wait loop. */
    method JoinAll(ghost n: nat, ghost before: seq<Status>, ghost launched: seq<bool>, ghost endings: seq<Ending>)
      requires Halfway(n, before, launched, endings) && n == Passed(before, launched)
      modifies this`pending, taskRunners, (set t <- job.TaskList())`status
      ensures Ready() && job.Statuses() == Settlement(before, launched, endings)
    {
      hide Mixed, Passed, Settlement, Job.Valid, Job.Distinct, Job.NodeAt, Holds;
      for k := 0 to taskCount
        invariant Halfway(n, before, launched, endings)
        invariant forall j | 0 <= j < k :: started[j] !in pending
      {
        EndHalfway(k, n, before, launched, endings);
      }
      AllJoined(n, before, launched, endings);
    }

    lemma AllJoined(n: nat, before: seq<Status>, launched: seq<bool>, endings: seq<Ending>)
      requires Halfway(n, before, launched, endings) && n == Passed(before, launched)
      requires taskCount == |started| && forall j | 0 <= j < taskCount :: started[j] !in pending
      ensures job.Statuses() == Settlement(before, launched, endings)
    {
      hide Job.Valid, Job.Distinct, Job.NodeAt, Ended, Passed;
      assert pending == {};
      MixedEnd(job.Statuses(), n, before, launched, endings);
    }

    /** The list loop of job_thread_parallel; false when it broke off. */
    method LaunchAll(launched: seq<bool>, endings: seq<Ending>, early: seq<seq<nat>>, ghost before: seq<Status>)
      returns (completion: bool)
      requires Halfway(0, before, launched, endings) && |early| == job.size
      modifies this`taskCount, this`started, this`pending, taskRunners, (set t <- job.TaskList())`status
      ensures Halfway(Passed(before, launched), before, launched, endings)
      ensures completion <==> Passed(before, launched) == job.size
    {
      hide Passed, Job.Valid, Job.Distinct, Job.NodeAt, Halfway, Stores;
      completion := true;
      HalfwayReady(0, before, launched, endings);
      var curr := job.head;
      var i := 0;
      job.Links(0);
      while curr != null
        invariant i <= job.size && curr == job.NodeAt(i)
        invariant completion && Halfway(i, before, launched, endings)
        decreases job.size - i
      {
        HalfwayReady(i, before, launched, endings);
        job.Links(i);
        HalfwayTurn(i, before, launched, endings);
        var status := curr.task.status;
        if status == Status.Ready || status == Incomplete {
          if !launched[i] {
            completion := false;
            break;
          }
          LaunchHalfway(curr.task, endings[i], i, before, launched, endings);
        }
        if status == NotReady || status == Busy {
          completion := false;
          break;
        }
        curr := curr.next;
        i := i + 1;
        EndSome(early[i - 1], i, before, launched, endings);
      }
      HalfwayReady(i, before, launched, endings);
      job.Links(i);
    }

    lemma HalfwayStart(before: seq<Status>, launched: seq<bool>, endings: seq<Ending>)
      requires Ready() && |launched| == |endings| == job.size && before == job.Statuses()
      ensures taskCount == 0 && started == [] && pending == {} ==> Halfway(0, before, launched, endings)
    {
      MixedStart(before, launched, endings);
    }

    lemma HalfwayReady(n: nat, before: seq<Status>, launched: seq<bool>, endings: seq<Ending>)
      requires Halfway(n, before, launched, endings)
      ensures Ready() && |launched| == |endings| == |before| == job.size && n <= Passed(before, launched)
    {
    }

    lemma HalfwayTurn(i: nat, before: seq<Status>, launched: seq<bool>, endings: seq<Ending>)
      requires Halfway(i, before, launched, endings) && i < job.size
      ensures Ready() && |launched| == |endings| == |before| && i < |job.spine|
      ensures var s := job.spine[i].task.status;
        && (Stops(s, launched[i]) <==> Passed(before, launched) == i)
        && (!Stops(s, launched[i]) && !Runnable(s) ==> Halfway(i + 1, before, launched, endings))
    {
      hide Job.Valid, Job.Distinct, Job.NodeAt, Holds, Passed, Mixed;
      MixedTurn(job.Statuses(), pending, i, before, launched, endings);
    }

    method LaunchHalfway(task: Task, ending: Ending, ghost i: nat, ghost before: seq<Status>, ghost launched: seq<bool>,
                         ghost endings: seq<Ending>)
      requires Halfway(i, before, launched, endings) && i < job.size && task == job.spine[i].task
        && ending == endings[i]
      requires Runnable(task.status) && launched[i]
      modifies task`status, this`taskCount, this`started, this`pending, taskRunners
      ensures Halfway(i + 1, before, launched, endings)
    {
      hide Job.Valid, Job.Distinct, Job.NodeAt, Holds, Passed, Mixed;
      MixedTurn(job.Statuses(), pending, i, before, launched, endings);
      Launch(task, ending, i, endings);
    }
  }

  /** Task i at its turn, in a parallel attempt. */
  lemma MixedTurn(ts: seq<Status>, pending: set<nat>, i: nat, before: seq<Status>, launched: seq<bool>,
                  endings: seq<Ending>)
    requires |launched| == |endings| == |before| == |ts| && i < |ts|
    requires Mixed(ts, pending, i, before, launched, endings) && i <= Passed(before, launched)
    ensures ts[i] == before[i]
    ensures Stops(ts[i], launched[i]) <==> Passed(before, launched) == i
    ensures !Stops(ts[i], launched[i]) && Runnable(ts[i]) ==>
      Mixed(ts[i := Busy], pending + {i}, i + 1, before, launched, endings)
    ensures !Stops(ts[i], launched[i]) && !Runnable(ts[i]) ==> Mixed(ts, pending, i + 1, before, launched, endings)
  {
    hide Passed;
  }

  lemma MixedFinish(ts: seq<Status>, pending: set<nat>, i: nat, n: nat, before: seq<Status>, launched: seq<bool>,
                    endings: seq<Ending>)
    requires |launched| == |endings| == |before| == |ts|
    requires Mixed(ts, pending, n, before, launched, endings) && n <= Passed(before, launched) && i < |ts|
    ensures Mixed(if i in pending then ts[i := Ended(endings[i])] else ts, pending - {i}, n, before, launched, endings)
  {
    hide Passed;
  }

  /** job_run, when memory can be had: without a site, without tasks or without a thread the job is not run. */
  method RunJob(job: Job, hasSite: bool, threadStarts: bool) returns (runner: JobRunner?)
    requires job.Valid() && job.Distinct()
    ensures runner == null <==> !hasSite || job.size == 0 || !threadStarts
    ensures runner != null ==>
      && fresh(runner) && runner.job == job && runner.Ready() && fresh(runner.taskRunners)
      && runner.attempts == runner.completions == runner.successes == 0
  {
    if !hasSite || job.size == 0 {
      return null;
    }
    runner := new JobRunner(job);
    if !threadStarts {
      return null;
    }
  }

  lemma MixedStart(before: seq<Status>, launched: seq<bool>, endings: seq<Ending>)
    requires |launched| == |endings| == |before|
    ensures Mixed(before, {}, 0, before, launched, endings)
  {
  }

  /** Task i at its turn, when none is pending. */
  lemma MixedNext(ts: seq<Status>, i: nat, before: seq<Status>, launched: seq<bool>, endings: seq<Ending>)
    requires |launched| == |endings| == |before| == |ts| && i < |ts|
    requires Mixed(ts, {}, i, before, launched, endings) && i <= Passed(before, launched)
    ensures ts[i] == before[i]
    ensures Stops(ts[i], launched[i]) <==> Passed(before, launched) == i
    ensures !Stops(ts[i], launched[i]) ==>
      Mixed(if Runnable(ts[i]) then ts[i := Ended(endings[i])] else ts, {}, i + 1, before, launched, endings)
  {
    hide Passed;
  }

  lemma MixedEnd(ts: seq<Status>, i: nat, before: seq<Status>, launched: seq<bool>, endings: seq<Ending>)
    requires |launched| == |endings| == |before| == |ts|
    requires Mixed(ts, {}, i, before, launched, endings) && i == Passed(before, launched)
    ensures ts == Settlement(before, launched, endings)
  {
  }

  lemma AllSame(ts: seq<Status>, s: Status)
    requires AllAre(ts, s)
    ensures ts == seq(|ts|, _ => s)
  {
  }
}
