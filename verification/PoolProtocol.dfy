/** The thread pool as a transition system. A step is one region of code under the pool's lock, or the return of a
    connection handler; any thread may take the next step. A thread in pthread_cond_wait is unsignalled, or signalled
    and waiting for the lock again; waking up without a signal is always possible. */
module PoolProtocol {
  /** A submitted connection; id is the number of the submission. */
  datatype Ticket = Ticket(id: nat, fd: int, listenerIndex: int)

  datatype Worker = Running | Waiting | Signalled | Handling(t: Ticket) | Exited

  /** One call of thread_pool_submit. */
  datatype Submitter = Entering(t: Ticket) | Blocked(t: Ticket) | Woken(t: Ticket) | Accepted | Rejected

  /** accepted, popped and handled are histories: pushed tickets, tickets handed to a handler, tickets whose handler
      returned. */
  datatype Pool = Pool(qcap: nat, queue: seq<Ticket>, shuttingDown: bool, workers: seq<Worker>,
                       submitters: seq<Submitter>, accepted: seq<Ticket>, popped: seq<Ticket>, handled: seq<Ticket>)

  /** pick is the thread that pthread_cond_signal wakes. */
  datatype Action =
    | WorkerTurn(w: nat, pick: nat)
    | HandlerReturns(w: nat)
    | WorkerWakes(w: nat)
    | NewSubmitter(fd: int, listenerIndex: int)
    | SubmitterTurn(u: nat, pick: nat)
    | SubmitterWakes(u: nat)
    | Shutdown

  function Create(workers: nat, qcap: nat): Pool {
    Pool(qcap, [], false, seq(workers, _ => Running), [], [], [], [])
  }

  /** pthread_cond_signal(not_empty): one waiting worker is signalled, if there is one. */
  function SignalWorker(ws: seq<Worker>, pick: nat): seq<Worker> {
    if pick < |ws| && ws[pick].Waiting? then ws[pick := Signalled] else ws
  }

  function SignalSubmitter(us: seq<Submitter>, pick: nat): seq<Submitter> {
    if pick < |us| && us[pick].Blocked? then us[pick := Woken(us[pick].t)] else us
  }

  /** A signal must reach a waiting thread when there is one. */
  predicate WorkerPick(ws: seq<Worker>, pick: nat) {
    (exists k :: 0 <= k < |ws| && ws[k].Waiting?) ==> pick < |ws| && ws[pick].Waiting?
  }

  predicate SubmitterPick(us: seq<Submitter>, pick: nat) {
    (exists k :: 0 <= k < |us| && us[k].Blocked?) ==> pick < |us| && us[pick].Blocked?
  }

  function BroadcastWorkers(ws: seq<Worker>): (r: seq<Worker>)
    ensures |r| == |ws| && forall k | 0 <= k < |ws| :: r[k] == if ws[k].Waiting? then Signalled else ws[k]
  {
    seq(|ws|, k requires 0 <= k < |ws| => if ws[k].Waiting? then Signalled else ws[k])
  }

  function BroadcastSubmitters(us: seq<Submitter>): (r: seq<Submitter>)
    ensures |r| == |us| && forall k | 0 <= k < |us| :: r[k] == if us[k].Blocked? then Woken(us[k].t) else us[k]
  {
    seq(|us|, k requires 0 <= k < |us| => if us[k].Blocked? then Woken(us[k].t) else us[k])
  }

  predicate Enabled(p: Pool, a: Action) {
    match a
    case WorkerTurn(w, pick) =>
      && w < |p.workers| && (p.workers[w].Running? || p.workers[w].Signalled?)
      && (p.queue != [] ==> SubmitterPick(p.submitters, pick))
    case HandlerReturns(w) => w < |p.workers| && p.workers[w].Handling?
    case WorkerWakes(w) => w < |p.workers| && p.workers[w].Waiting?
    case NewSubmitter(_, _) => true
    case SubmitterTurn(u, pick) =>
      && u < |p.submitters| && (p.submitters[u].Entering? || p.submitters[u].Woken?)
      && (|p.queue| != p.qcap && !p.shuttingDown ==> WorkerPick(p.workers, pick))
    case SubmitterWakes(u) => u < |p.submitters| && p.submitters[u].Blocked?
    case Shutdown => true
  }

  /** A worker holds the lock at the head of its waiting loop. */
  function TakeWork(p: Pool, w: nat, pick: nat): Pool
    requires w < |p.workers|
  {
    if p.queue == [] then p.(workers := p.workers[w := if p.shuttingDown then Exited else Waiting])
    else
      p.(workers := p.workers[w := Handling(p.queue[0])], queue := p.queue[1..], popped := p.popped + [p.queue[0]],
         submitters := SignalSubmitter(p.submitters, pick))
  }

  /** A submitter holds the lock at the head of its waiting loop. */
  function OfferWork(p: Pool, u: nat, pick: nat): Pool
    requires u < |p.submitters| && (p.submitters[u].Entering? || p.submitters[u].Woken?)
  {
    var t := p.submitters[u].t;
    if p.shuttingDown then p.(submitters := p.submitters[u := Rejected])
    else if |p.queue| == p.qcap then p.(submitters := p.submitters[u := Blocked(t)])
    else
      p.(submitters := p.submitters[u := Accepted], queue := p.queue + [t], accepted := p.accepted + [t],
         workers := SignalWorker(p.workers, pick))
  }

  function Step(p: Pool, a: Action): Pool
    requires Enabled(p, a)
  {
    match a
    case WorkerTurn(w, pick) => TakeWork(p, w, pick)
    case HandlerReturns(w) => p.(workers := p.workers[w := Running], handled := p.handled + [p.workers[w].t])
    case WorkerWakes(w) => p.(workers := p.workers[w := Signalled])
    case NewSubmitter(fd, li) => p.(submitters := p.submitters + [Entering(Ticket(|p.submitters|, fd, li))])
    case SubmitterTurn(u, pick) => OfferWork(p, u, pick)
    case SubmitterWakes(u) => p.(submitters := p.submitters[u := Woken(p.submitters[u].t)])
    case Shutdown =>
      p.(shuttingDown := true, workers := BroadcastWorkers(p.workers), submitters := BroadcastSubmitters(p.submitters))
  }

  // Counting

  function SignalledWorkers(ws: seq<Worker>): nat {
    if ws == [] then 0 else SignalledWorkers(ws[..|ws| - 1]) + if ws[|ws| - 1].Signalled? then 1 else 0
  }

  function WokenSubmitters(us: seq<Submitter>): nat {
    if us == [] then 0 else WokenSubmitters(us[..|us| - 1]) + if us[|us| - 1].Woken? then 1 else 0
  }

  /** The tickets that workers are handling. */
  function InHands(ws: seq<Worker>): multiset<Ticket> {
    if ws == [] then multiset{} else InHands(ws[..|ws| - 1]) + Hand(ws[|ws| - 1])
  }

  function Hand(w: Worker): multiset<Ticket> {
    if w.Handling? then multiset{w.t} else multiset{}
  }

  /** How much work is left to the workers once the pool is shutting down. */
  function Effort(w: Worker): nat {
    match w
    case Handling(_) => 2
    case Exited => 0
    case _ => 1
  }

  function Efforts(ws: seq<Worker>): nat {
    if ws == [] then 0 else Efforts(ws[..|ws| - 1]) + Effort(ws[|ws| - 1])
  }

  function Measure(p: Pool): nat {
    2 * |p.queue| + Efforts(p.workers)
  }

  lemma {:induction false} WorkerChanged(ws: seq<Worker>, i: nat, w: Worker)
    requires i < |ws|
    ensures SignalledWorkers(ws[i := w]) + (if ws[i].Signalled? then 1 else 0) == SignalledWorkers(ws)
      + if w.Signalled? then 1 else 0
    ensures Efforts(ws[i := w]) + Effort(ws[i]) == Efforts(ws) + Effort(w)
    decreases |ws|
  {
    var n := |ws| - 1;
    if i < n {
      WorkerChanged(ws[..n], i, w);
      assert ws[i := w][..n] == ws[..n][i := w];
    } else {
      assert ws[i := w][..n] == ws[..n];
    }
  }

  lemma {:induction false} HandsChanged(ws: seq<Worker>, i: nat, w: Worker)
    requires i < |ws|
    ensures InHands(ws[i := w]) + Hand(ws[i]) == InHands(ws) + Hand(w)
    decreases |ws|
  {
    hide Hand;
    var n := |ws| - 1;
    if i < n {
      HandsChanged(ws[..n], i, w);
      assert ws[i := w][..n] == ws[..n][i := w];
      Swap(InHands(ws[..n][i := w]), Hand(ws[n]), Hand(ws[i]));
      Swap(InHands(ws[..n]), Hand(ws[n]), Hand(w));
    } else {
      assert ws[i := w][..n] == ws[..n];
      Swap(InHands(ws[..n]), Hand(w), Hand(ws[i]));
    }
  }

  lemma Swap(a: multiset<Ticket>, b: multiset<Ticket>, c: multiset<Ticket>)
    ensures a + b + c == a + c + b
  {
  }

  lemma {:induction false} SubmitterChanged(us: seq<Submitter>, i: nat, u: Submitter)
    requires i < |us|
    ensures WokenSubmitters(us[i := u]) + (if us[i].Woken? then 1 else 0) == WokenSubmitters(us)
      + if u.Woken? then 1 else 0
    decreases |us|
  {
    var n := |us| - 1;
    if i < n {
      SubmitterChanged(us[..n], i, u);
      assert us[i := u][..n] == us[..n][i := u];
    } else {
      assert us[i := u][..n] == us[..n];
    }
  }

  lemma {:induction false} BroadcastKeeps(ws: seq<Worker>)
    ensures InHands(BroadcastWorkers(ws)) == InHands(ws) && Efforts(BroadcastWorkers(ws)) == Efforts(ws)
    decreases |ws|
  {
    if ws != [] {
      BroadcastKeeps(ws[..|ws| - 1]);
      assert BroadcastWorkers(ws)[..|ws| - 1] == BroadcastWorkers(ws[..|ws| - 1]);
    }
  }

  // Invariants

  /** No wakeup is lost: a worker left waiting means that enough others are on their way, and so for submitters. */
  ghost predicate NoLostWakeups(p: Pool) {
    !p.shuttingDown ==>
      && ((exists k :: 0 <= k < |p.workers| && p.workers[k].Waiting?) ==> SignalledWorkers(p.workers) >= |p.queue|)
      && ((exists k :: 0 <= k < |p.submitters| && p.submitters[k].Blocked?) ==>
            WokenSubmitters(p.submitters) >= p.qcap - |p.queue|)
  }

  /** Accepted tickets, in order, are the popped ones followed by the queued ones; each submission is accepted at most
      once. */
  ghost predicate Conserved(p: Pool) {
    && p.accepted == p.popped + p.queue
    && |p.queue| <= p.qcap
    && (forall i, j | 0 <= i < j < |p.accepted| :: p.accepted[i].id != p.accepted[j].id)
    && (forall i | 0 <= i < |p.accepted| ::
          p.accepted[i].id < |p.submitters| && p.submitters[p.accepted[i].id] == Accepted)
    && (forall u | 0 <= u < |p.submitters| && HasTicket(p.submitters[u]) :: p.submitters[u].t.id == u)
  }

  /** What was handed to a handler has returned or is being handled. */
  ghost predicate Handed(p: Pool) {
    multiset(p.popped) == multiset(p.handled) + InHands(p.workers)
  }

  predicate HasTicket(u: Submitter) { u.Entering? || u.Blocked? || u.Woken? }

  /** Shutting down leaves nobody waiting; only then do workers exit, and only from an empty queue. */
  ghost predicate Draining(p: Pool) {
    && (p.shuttingDown ==>
          && (forall k | 0 <= k < |p.workers| :: !p.workers[k].Waiting?)
          && (forall k | 0 <= k < |p.submitters| :: !p.submitters[k].Blocked?))
    && ((exists k :: 0 <= k < |p.workers| && p.workers[k].Exited?) ==> p.shuttingDown && p.queue == [])
  }

  ghost predicate Inv(p: Pool) {
    NoLostWakeups(p) && Conserved(p) && Handed(p) && Draining(p)
  }

  lemma CreateInv(workers: nat, qcap: nat)
    ensures Inv(Create(workers, qcap))
  {
    NoHands(Create(workers, qcap).workers);
  }

  lemma {:induction false} NoHands(ws: seq<Worker>)
    requires forall k | 0 <= k < |ws| :: !ws[k].Handling?
    ensures InHands(ws) == multiset{}
    decreases |ws|
  {
    if ws != [] {
      NoHands(ws[..|ws| - 1]);
    }
  }

  lemma TakeWakeups(p: Pool, w: nat, pick: nat)
    requires NoLostWakeups(p) && |p.queue| <= p.qcap && Enabled(p, WorkerTurn(w, pick))
    ensures NoLostWakeups(TakeWork(p, w, pick))
  {
    hide SignalledWorkers, WokenSubmitters, Efforts;
    var q := TakeWork(p, w, pick);
    WorkerChanged(p.workers, w, q.workers[w]);
    if p.queue != [] && pick < |p.submitters| {
      SubmitterChanged(p.submitters, pick, q.submitters[pick]);
    }
  }

  lemma OfferWakeups(p: Pool, u: nat, pick: nat)
    requires NoLostWakeups(p) && |p.queue| <= p.qcap && Enabled(p, SubmitterTurn(u, pick))
    ensures NoLostWakeups(OfferWork(p, u, pick))
  {
    hide SignalledWorkers, WokenSubmitters, Efforts;
    var q := OfferWork(p, u, pick);
    SubmitterChanged(p.submitters, u, q.submitters[u]);
    if !p.shuttingDown && |p.queue| != p.qcap && pick < |p.workers| {
      WorkerChanged(p.workers, pick, q.workers[pick]);
    }
  }

  lemma StepWakeups(p: Pool, a: Action)
    requires NoLostWakeups(p) && |p.queue| <= p.qcap && Enabled(p, a)
    ensures NoLostWakeups(Step(p, a))
  {
    hide SignalledWorkers, Efforts;
    var q := Step(p, a);
    match a
    case WorkerTurn(w, pick) => TakeWakeups(p, w, pick);
    case HandlerReturns(w) => WorkerChanged(p.workers, w, Running);
    case WorkerWakes(w) => WorkerChanged(p.workers, w, Signalled);
    case NewSubmitter(_, _) => assert q.submitters[..|p.submitters|] == p.submitters;
    case SubmitterTurn(u, pick) => OfferWakeups(p, u, pick);
    case SubmitterWakes(u) => SubmitterChanged(p.submitters, u, q.submitters[u]);
    case Shutdown =>
  }

  lemma StepConserved(p: Pool, a: Action)
    requires Conserved(p) && Enabled(p, a)
    ensures Conserved(Step(p, a))
  {
    var q := Step(p, a);
    match a
    case WorkerTurn(w, pick) =>
      if p.queue != [] {
        assert q.popped + q.queue == p.popped + p.queue;
      }
    case SubmitterTurn(u, pick) =>
      if !p.shuttingDown && |p.queue| != p.qcap {
        assert q.popped + q.queue == p.popped + p.queue + [p.submitters[u].t];
      }
    case _ =>
  }

  /** A worker that takes a ticket, lets one go, or does neither. */
  lemma HandsTake(ws: seq<Worker>, i: nat, t: Ticket)
    requires i < |ws| && !ws[i].Handling?
    ensures InHands(ws[i := Handling(t)]) == InHands(ws) + multiset{t}
  {
    HandsChanged(ws, i, Handling(t));
    assert Hand(ws[i]) == multiset{};
    hide InHands;
  }

  lemma HandsKeep(ws: seq<Worker>, i: nat, w: Worker)
    requires i < |ws| && !ws[i].Handling? && !w.Handling?
    ensures InHands(ws[i := w]) == InHands(ws)
  {
    HandsChanged(ws, i, w);
    hide InHands;
    var none: multiset<Ticket> := multiset{};
    assert Hand(ws[i]) == none && Hand(w) == none;
    Regroup(InHands(ws), none, none);
    assert InHands(ws) + none == InHands(ws) && InHands(ws[i := w]) + none == InHands(ws[i := w]);
  }

  lemma HandsGive(ws: seq<Worker>, i: nat)
    requires i < |ws| && ws[i].Handling?
    ensures InHands(ws) == InHands(ws[i := Running]) + multiset{ws[i].t}
  {
    HandsChanged(ws, i, Running);
    assert Hand(ws[i]) == multiset{ws[i].t} && Hand(Running) == multiset{};
    hide InHands;
  }

  lemma StepHanded(p: Pool, a: Action)
    requires Handed(p) && Enabled(p, a)
    ensures Handed(Step(p, a))
  {
    hide InHands, WorkerPick, SubmitterPick;
    var q := Step(p, a);
    match a
    case WorkerTurn(w, pick) =>
      if p.queue == [] {
        HandsKeep(p.workers, w, q.workers[w]);
      } else {
        HandsTake(p.workers, w, p.queue[0]);
        Regroup(multiset(p.handled), InHands(p.workers), multiset{p.queue[0]});
      }
    case HandlerReturns(w) =>
      HandsGive(p.workers, w);
      Regroup(multiset(p.handled), InHands(q.workers), multiset{p.workers[w].t});
    case WorkerWakes(w) => HandsKeep(p.workers, w, Signalled);
    case SubmitterTurn(u, pick) =>
      if q.workers != p.workers {
        HandsKeep(p.workers, pick, Signalled);
      }
    case Shutdown => BroadcastKeeps(p.workers);
    case NewSubmitter(_, _) =>
    case SubmitterWakes(_) =>
  }

  lemma Regroup(a: multiset<Ticket>, b: multiset<Ticket>, c: multiset<Ticket>)
    ensures a + (b + c) == a + b + c == a + c + b
  {
  }

  lemma StepDraining(p: Pool, a: Action)
    requires Draining(p) && Enabled(p, a)
    ensures Draining(Step(p, a))
  {
  }

  /** Every step of every thread keeps the invariants. */
  lemma StepInv(p: Pool, a: Action)
    requires Inv(p) && Enabled(p, a)
    ensures Inv(Step(p, a))
  {
    StepWakeups(p, a);
    StepConserved(p, a);
    StepHanded(p, a);
    StepDraining(p, a);
    hide NoLostWakeups, Conserved, Handed, Draining, Step;
  }
}
