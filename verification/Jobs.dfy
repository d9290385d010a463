/** A job and its linked list of tasks. */
module Jobs {
  import opened Bytes
  import opened Tasks
  import opened Attempts

  class Task {
    var status: Status
    const name: bytes

    constructor (name: bytes)
      ensures this.name == name && status == Ready
    {
      this.name := name;
      status := Ready;
    }
  }

  class JobNode {
    const task: Task
    var next: JobNode?

    constructor (task: Task)
      ensures this.task == task && next == null
    {
      this.task := task;
      next := null;
    }
  }

  function TasksOf(nodes: seq<JobNode>): (ts: seq<Task>)
    ensures |ts| == |nodes| && forall k | 0 <= k < |nodes| :: ts[k] == nodes[k].task
  {
    seq(|nodes|, k requires 0 <= k < |nodes| => nodes[k].task)
  }

  ghost function StatusesOf(ts: seq<Task>): (s: seq<Status>)
    reads ts
    ensures |s| == |ts| && forall k | 0 <= k < |ts| :: s[k] == ts[k].status
  {
    seq(|ts|, k requires 0 <= k < |ts| reads ts => ts[k].status)
  }

  class Job {
    const id: int
    var status: Status
    var size: nat
    var mode: Mode
    var repeating: bool
    var head: JobNode?
    var tail: JobNode?
    /** The nodes from head to tail. */
    ghost var spine: seq<JobNode>

    /** The list that starts at head and follows next is the spine, and tail is its last node. */
    ghost predicate Valid()
      reads this`size, this`head, this`tail, this`spine, spine`next
    {
      && size == |spine|
      && head == NodeAt(0)
      && (size > 0 ==> tail == spine[size - 1])
      && (forall k | 0 <= k < size :: spine[k].next == NodeAt(k + 1))
      && (forall i, j | 0 <= i < j < size :: spine[i] != spine[j])
    }

    ghost function NodeAt(k: nat): JobNode?
      reads this`spine
    {
      if k < |spine| then spine[k] else null
    }

    /** The tasks in list order. */
    ghost function TaskList(): (ts: seq<Task>)
      reads this`spine
      ensures |ts| == |spine|
    {
      TasksOf(spine)
    }

    ghost function Statuses(): (ts: seq<Status>)
      reads this`spine, TaskList()
      ensures |ts| == |spine|
    {
      StatusesOf(TaskList())
    }

    /** No task was added twice. */
    ghost predicate Distinct()
      reads this`spine
    {
      forall i, j | 0 <= i < j < |spine| :: spine[i].task != spine[j].task
    }

    constructor (id: int)
      ensures Valid() && this.id == id && spine == [] && status == Ready && mode == Sequential && !repeating
    {
      this.id := id;
      status, size, mode, repeating := Ready, 0, Sequential, false;
      head, tail := null, null;
      spine := [];
    }

    /** job_add_task */
    method AddTask(task: Task)
      requires Valid()
      modifies this`size, this`head, this`tail, this`spine, spine
      ensures Valid() && TaskList() == old(TaskList()) + [task]
      ensures |spine| == |old(spine)| + 1 && spine[..|spine| - 1] == old(spine) && fresh(spine[|spine| - 1])
    {
      var node := new JobNode(task);
      spine := spine + [node];
      size := size + 1;
      if size == 1 {
        head := node;
        tail := node;
        return;
      }
      tail.next := node;
      tail := node;
      assert forall k | 0 <= k < size - 2 :: spine[k].next == spine[k + 1];
    }

    /** update_status and job_get_status: the status is derived from the tasks', and an empty job keeps the one it
        had. */
    method GetStatus() returns (s: Status)
      requires Valid()
      modifies this`status
      ensures s == status == if size == 0 then old(status) else Derived(Statuses())
    {
      hide Derived;
      if size == 0 {
        return status;
      }
      ghost var ts := Statuses();
      var notReady, ready, busy, incomplete := CountStatuses();
      DerivedByCount(ts);
      status := if busy > 0 then Busy
                else if notReady > 0 then NotReady
                else if incomplete > 0 then Incomplete
                else if ready > 0 then Ready
                else Completed;
      s := status;
    }

    method CountStatuses() returns (notReady: nat, ready: nat, busy: nat, incomplete: nat)
      requires Valid()
      ensures notReady == Tally(Statuses(), NotReady) && ready == Tally(Statuses(), Ready)
      ensures busy == Tally(Statuses(), Busy) && incomplete == Tally(Statuses(), Incomplete)
    {
      hide Tally;
      notReady, ready, busy, incomplete := 0, 0, 0, 0;
      var completed := 0;
      var curr := head;
      ghost var i := 0;
      ghost var ts := Statuses();
      TallyNone();
      while curr != null
        invariant i <= size && curr == NodeAt(i)
        invariant notReady == Tally(ts[..i], NotReady) && ready == Tally(ts[..i], Ready)
        invariant busy == Tally(ts[..i], Busy) && incomplete == Tally(ts[..i], Incomplete)
        decreases size - i
      {
        TallyNext(ts, i);
        match curr.task.status {
          case NotReady => notReady := notReady + 1;
          case Ready => ready := ready + 1;
          case Busy => busy := busy + 1;
          case Completed => completed := completed + 1;
          case Incomplete => incomplete := incomplete + 1;
        }
        curr := curr.next;
        i := i + 1;
      }
      assert ts[..i] == ts;
    }

    /** task_set_status on a task of the job: no other task of it changes. */
    method SetTaskStatus(task: Task, s: Status, ghost i: nat)
      requires Valid() && Distinct() && i < size && task == spine[i].task
      modifies task`status
      ensures Statuses() == old(Statuses())[i := s]
    {
      hide Valid, NodeAt;
      assert size == |spine| by { Links(i); }
      task.status := s;
    }

    /** What Valid says about node i. */
    lemma Links(i: nat)
      requires Valid() && i <= size
      ensures size == |spine|
      ensures i == 0 ==> head == NodeAt(i)
      ensures i == size <==> NodeAt(i) == null
      ensures i < size ==> NodeAt(i) == spine[i] && spine[i].next == NodeAt(i + 1) && spine[i].task == TaskList()[i]
    {
    }

    /** reset_status */
    method ResetStatus()
      requires Valid()
      modifies (set t <- TaskList())`status
      ensures AllAre(Statuses(), Ready)
    {
      var curr := head;
      ghost var i := 0;
      while curr != null
        invariant i <= size && curr == NodeAt(i)
        invariant forall k | 0 <= k < i :: spine[k].task.status == Ready
        decreases size - i
      {
        assert curr.task == TaskList()[i];
        curr.task.status := Ready;
        curr := curr.next;
        i := i + 1;
      }
    }
  }

  /** How many tasks have this status. */
  function Tally(ts: seq<Status>, s: Status): nat {
    if ts == [] then 0 else Tally(ts[..|ts| - 1], s) + if ts[|ts| - 1] == s then 1 else 0
  }

  lemma TallyNone()
    ensures forall s :: Tally([], s) == 0
  {
  }

  lemma TallyNext(ts: seq<Status>, i: nat)
    requires i < |ts|
    ensures forall s :: Tally(ts[..i + 1], s) == Tally(ts[..i], s) + if ts[i] == s then 1 else 0
  {
    assert ts[..i + 1][..i] == ts[..i];
  }

  lemma {:induction false} TallyIn(ts: seq<Status>, s: Status)
    ensures Tally(ts, s) > 0 <==> s in ts
    decreases |ts|
  {
    if ts != [] {
      TallyIn(ts[..|ts| - 1], s);
      assert ts == ts[..|ts| - 1] + [ts[|ts| - 1]];
    }
  }

  lemma DerivedByCount(ts: seq<Status>)
    ensures Derived(ts) == if Tally(ts, Busy) > 0 then Busy
                           else if Tally(ts, NotReady) > 0 then NotReady
                           else if Tally(ts, Incomplete) > 0 then Incomplete
                           else if Tally(ts, Ready) > 0 then Ready
                           else Completed
  {
    TallyIn(ts, Busy);
    TallyIn(ts, NotReady);
    TallyIn(ts, Incomplete);
    TallyIn(ts, Ready);
  }

  /** job_create */
  method CreateJob(id: int) returns (job: Job?)
    ensures job == null <==> id <= 0
    ensures job != null ==>
      && fresh(job) && job.Valid() && job.spine == [] && job.id == id
      && job.mode == Sequential && !job.repeating && job.status == Ready
  {
    if id <= 0 {
      return null;
    }
    job := new Job(id);
  }
}
