/** Task statuses, how the end of a task's process decides one, and the job status derived from them. */
module Tasks {
  datatype Status = NotReady | Ready | Busy | Completed | Incomplete

  /** What waitpid reports: an exit code, a signal, or neither. */
  datatype Ending = Exited(code: int) | Signalled(signo: int) | Neither

  const EXIT_SUCCESS := 0
  const SIGINT := 2

  /** The status of a running task once its process has ended. */
  function Ended(e: Ending): Status {
    match e
    case Exited(code) => if code == EXIT_SUCCESS then Completed else NotReady
    case Signalled(signo) => if signo == SIGINT then Incomplete else Ready
    case Neither => Busy
  }

  /** An attempt starts these tasks. */
  predicate Runnable(s: Status) { s == Ready || s == Incomplete }

  /** The derived job status. */
  function Derived(tasks: seq<Status>): Status {
    if Busy in tasks then Busy
    else if NotReady in tasks then NotReady
    else if Incomplete in tasks then Incomplete
    else if Ready in tasks then Ready
    else Completed
  }

  predicate AllAre(tasks: seq<Status>, s: Status) {
    forall k | 0 <= k < |tasks| :: tasks[k] == s
  }

  /** A job counts as completed only when every task is. */
  lemma DerivedCompleted(tasks: seq<Status>)
    ensures Derived(tasks) == Completed <==> AllAre(tasks, Completed)
  {
    if Derived(tasks) == Completed {
      forall k | 0 <= k < |tasks|
        ensures tasks[k] == Completed
      {
        assert tasks[k] in tasks;
      }
    }
  }
}
