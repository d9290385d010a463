/** The thread pool's fields and the code that runs under its lock. Every locked region refines one step of the
    protocol. */
module ThreadPools {
  import opened PoolProtocol
  import opened Bytes

  /** The slot i places after slot head in a ring of n. */
  function Slot(head: nat, i: nat, n: nat): (k: nat)
    requires head < n && i <= n
    ensures k < n
  {
    if head + i < n then head + i else head + i - n
  }

  lemma NextSlot(head: nat, i: nat, n: nat)
    requires head < n && i < n
    ensures Slot(head, i + 1, n) == (Slot(head, i, n) + 1) % n
  {
    var k := Slot(head, i, n) + 1;
    assert k == n ==> k % n == 0;
    assert k < n ==> k % n == k;
  }

  lemma SlotsShift(head: nat, next: nat, n: nat)
    requires head < n && next == (head + 1) % n
    ensures next < n && forall i: nat | i < n :: Slot(next, i, n) == Slot(head, i + 1, n)
  {
    NextSlot(head, 0, n);
  }

  class ThreadPool {
    var queue: array<Ticket>
    var qcap: nat
    var qhead: nat
    var qtail: nat
    var qlen: nat
    var shuttingDown: bool

    // Where each thread stands when it does not hold the lock, and the history of the connections.
    ghost var workers: seq<Worker>
    ghost var submitters: seq<Submitter>
    ghost var accepted: seq<Ticket>
    ghost var popped: seq<Ticket>
    ghost var handled: seq<Ticket>

    ghost predicate Valid()
      reads this
    {
      && queue.Length == qcap > 0
      && qhead < qcap
      && qlen <= qcap
      && qtail == Slot(qhead, qlen, qcap)
    }

    /** The ring as a sequence, oldest connection first. */
    ghost function Contents(): (s: seq<Ticket>)
      requires Valid()
      reads this, queue
      ensures |s| == qlen
    {
      seq(qlen, i requires 0 <= i < qlen reads this, queue requires Valid() => queue[Slot(qhead, i, qcap)])
    }

    ghost function View(): Pool
      requires Valid()
      reads this, queue
    {
      Pool(qcap, Contents(), shuttingDown, workers, submitters, accepted, popped, handled)
    }

    constructor (nworkers: nat, capacity: nat)
      requires nworkers > 0 && capacity > 0
      ensures Valid() && fresh(queue)
      ensures View() == Create(nworkers, capacity)
    {
      queue := new Ticket[capacity](_ => Ticket(0, 0, 0));
      qcap, qhead, qtail, qlen := capacity, 0, 0, 0;
      shuttingDown := false;
      workers := seq(nworkers, _ => Running);
      submitters, accepted, popped, handled := [], [], [], [];
    }

    /** queue_push */
    method Push(t: Ticket)
      requires Valid() && qlen < qcap
      modifies this`qtail, this`qlen, queue
      ensures Valid() && Contents() == old(Contents()) + [t]
    {
      NextSlot(qhead, qlen, qcap);
      queue[qtail] := t;
      qtail := (qtail + 1) % qcap;
      qlen := qlen + 1;
      assert forall i: nat | i < old(qlen) :: Slot(qhead, i, qcap) != old(qtail);
      assert Contents() == old(Contents()) + [t];
    }

    /** queue_pop */
    method Pop() returns (t: Ticket)
      requires Valid() && qlen > 0
      modifies this`qhead, this`qlen
      ensures Valid() && old(Contents()) == [t] + Contents()
    {
      SlotsShift(qhead, (qhead + 1) % qcap, qcap);
      t := queue[qhead];
      qhead := (qhead + 1) % qcap;
      qlen := qlen - 1;
      assert qtail == Slot(old(qhead), qlen + 1, qcap) == Slot(qhead, qlen, qcap);
      assert t == old(Contents())[0];
      assert forall i: nat | i < qlen :: old(Contents())[i + 1] == Contents()[i];
      assert old(Contents()) == [t] + Contents();
    }

    /** A worker that holds the lock, from the test of its waiting loop until it lets the lock go: either it starts to
        wait, or it exits, or it leaves with a connection to handle. */
    method WorkerRegion(w: nat, ghost pick: nat) returns (exits: bool, job: Option<Ticket>)
      requires Valid() && Enabled(View(), WorkerTurn(w, pick))
      modifies this`qhead, this`qlen, this`workers, this`submitters, this`popped
      ensures Valid() && View() == Step(old(View()), WorkerTurn(w, pick))
      ensures exits <==> workers[w].Exited?
      ensures exits <==> old(shuttingDown && Contents() == [])
      ensures old(Contents()) != [] ==> job == Some(old(Contents())[0]) && old(Contents()) == [job.value] + Contents()
      ensures old(Contents()) == [] ==> job == None && Contents() == []
      ensures job == if workers[w].Handling? then Some(workers[w].t) else None
    {
      exits, job := false, None;
      if qlen == 0 && !shuttingDown {
        workers := workers[w := Waiting];
        return;
      }
      if qlen == 0 && shuttingDown {
        workers := workers[w := Exited];
        exits := true;
        return;
      }
      var t := Pop();
      job := Some(t);
      popped := popped + [t];
      workers := workers[w := Handling(t)];
      submitters := SignalSubmitter(submitters, pick);
    }

    /** A call of thread_pool_submit that holds the lock: it waits, is rejected, or pushes its connection. */
    method SubmitRegion(u: nat, fd: int, listenerIndex: int, ghost pick: nat) returns (r: Option<int>)
      requires Valid() && Enabled(View(), SubmitterTurn(u, pick)) && submitters[u].t == Ticket(u, fd, listenerIndex)
      modifies this`qtail, this`qlen, queue, this`workers, this`submitters, this`accepted
      ensures Valid() && View() == Step(old(View()), SubmitterTurn(u, pick))
      ensures r == Some(-1) <==> old(shuttingDown)
      ensures r == Some(0) <==> old(!shuttingDown && |Contents()| < qcap)
      ensures r == None <==> old(!shuttingDown && |Contents()| == qcap)
      ensures Contents() == old(Contents()) + if r == Some(0) then [Ticket(u, fd, listenerIndex)] else []
      ensures r == if submitters[u].Accepted? then Some(0) else if submitters[u].Rejected? then Some(-1) else None
    {
      if shuttingDown {
        submitters := submitters[u := Rejected];
        return Some(-1);
      }
      if qlen == qcap {
        submitters := submitters[u := Blocked(submitters[u].t)];
        return None;
      }
      var t := Ticket(u, fd, listenerIndex);
      Push(t);
      accepted := accepted + [t];
      submitters := submitters[u := Accepted];
      workers := SignalWorker(workers, pick);
      return Some(0);
    }

    /** thread_pool_shutdown */
    method RequestShutdown()
      requires Valid()
      modifies this`shuttingDown, this`workers, this`submitters
      ensures Valid() && View() == Step(old(View()), Shutdown)
    {
      shuttingDown := true;
      workers := BroadcastWorkers(workers);
      submitters := BroadcastSubmitters(submitters);
    }
  }

  /** thread_pool_create, when memory and threads can be had. */
  method CreatePool(nworkers: nat, qcap: nat, hasServer: bool) returns (pool: ThreadPool?)
    ensures pool == null <==> nworkers == 0 || qcap == 0 || !hasServer
    ensures pool != null ==> fresh(pool) && pool.Valid() && pool.View() == Create(nworkers, qcap) && Inv(pool.View())
  {
    if nworkers == 0 || qcap == 0 || !hasServer {
      return null;
    }
    pool := new ThreadPool(nworkers, qcap);
    CreateInv(nworkers, qcap);
  }
}
