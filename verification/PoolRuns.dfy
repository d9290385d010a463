/** What the thread pool promises over whole runs: any number of threads, any order of steps, spurious wakeups
    included. */
module PoolRuns {
  import opened PoolProtocol

  /** The actions can be taken one after the other. */
  ghost predicate CanRun(p: Pool, actions: seq<Action>)
    decreases |actions|
  {
    actions == [] || (Enabled(p, actions[0]) && CanRun(Step(p, actions[0]), actions[1..]))
  }

  ghost function After(p: Pool, actions: seq<Action>): Pool
    requires CanRun(p, actions)
    decreases |actions|
  {
    if actions == [] then p else After(Step(p, actions[0]), actions[1..])
  }

  lemma {:induction false} RunInv(p: Pool, actions: seq<Action>)
    requires Inv(p) && CanRun(p, actions)
    ensures Inv(After(p, actions))
    decreases |actions|
  {
    hide Inv, Enabled, Step;
    if actions != [] {
      StepInv(p, actions[0]);
      RunInv(Step(p, actions[0]), actions[1..]);
    }
  }

  /** From the creation of the pool, tickets leave in the order in which they were accepted, none is lost or handed over
      twice, every one that was popped has been handled or is being handled, and the queue never exceeds its
      capacity. */
  lemma FirstInFirstOut(workers: nat, qcap: nat, actions: seq<Action>)
    requires CanRun(Create(workers, qcap), actions)
    ensures var p := After(Create(workers, qcap), actions);
      && p.accepted == p.popped + p.queue
      && |p.queue| <= qcap
      && (forall i, j | 0 <= i < j < |p.popped| :: p.popped[i] != p.popped[j])
      && multiset(p.popped) == multiset(p.handled) + InHands(p.workers)
      && (forall t | t in p.queue || t in p.popped :: t.id < |p.submitters| && p.submitters[t.id] == Accepted)
  {
    CreateInv(workers, qcap);
    RunInv(Create(workers, qcap), actions);
    RunShape(Create(workers, qcap), actions);
    var p := After(Create(workers, qcap), actions);
    forall i, j | 0 <= i < j < |p.popped|
      ensures p.popped[i] != p.popped[j]
    {
      assert p.popped[i] == p.accepted[i] && p.popped[j] == p.accepted[j];
    }
    forall t | t in p.queue || t in p.popped
      ensures t in p.accepted
    {
    }
  }

  /** The history of a run only grows, decided submissions stay decided, and capacity and thread count do not change. */
  ghost predicate Extends(p: Pool, q: Pool) {
    && p.accepted <= q.accepted
    && p.popped <= q.popped
    && p.handled <= q.handled
    && q.qcap == p.qcap
    && |q.workers| == |p.workers|
    && |p.submitters| <= |q.submitters|
    && (forall u | 0 <= u < |p.submitters| && (p.submitters[u].Accepted? || p.submitters[u].Rejected?) ::
          q.submitters[u] == p.submitters[u])
    && (p.shuttingDown ==> q.shuttingDown && q.accepted == p.accepted)
    && (forall w | 0 <= w < |p.workers| && p.workers[w].Exited? :: q.workers[w].Exited?)
  }

  lemma StepShape(p: Pool, a: Action)
    requires Enabled(p, a)
    ensures Extends(p, Step(p, a))
  {
  }

  lemma ExtendsTransitive(p: Pool, q: Pool, r: Pool)
    requires Extends(p, q) && Extends(q, r)
    ensures Extends(p, r)
  {
  }

  lemma {:induction false} RunShape(p: Pool, actions: seq<Action>)
    requires CanRun(p, actions)
    ensures Extends(p, After(p, actions))
    decreases |actions|
  {
    hide Step, Enabled;
    if actions != [] {
      StepShape(p, actions[0]);
      RunShape(Step(p, actions[0]), actions[1..]);
      ExtendsTransitive(p, Step(p, actions[0]), After(p, actions));
    }
  }

  /** A rejected connection is in no queue and in no worker's hands, then and ever after. */
  lemma RejectedNeverQueued(p: Pool, actions: seq<Action>, u: nat)
    requires Inv(p) && CanRun(p, actions) && u < |p.submitters| && p.submitters[u] == Rejected
    ensures var q := After(p, actions); forall t | t in q.queue || t in q.popped :: t.id != u
  {
    RunInv(p, actions);
    RunShape(p, actions);
    var q := After(p, actions);
    forall t | t in q.queue || t in q.popped
      ensures t.id != u
    {
      assert t in q.accepted;
    }
  }

  // What one turn does

  /** A submitter that holds the lock is rejected after shutdown; before it, its ticket goes to the end of a queue with
      room, and at a full queue the submitter waits with its ticket. */
  lemma SubmitterTurnDoes(p: Pool, u: nat, pick: nat)
    requires Enabled(p, SubmitterTurn(u, pick))
    ensures var q, t := Step(p, SubmitterTurn(u, pick)), p.submitters[u].t;
      && |q.submitters| == |p.submitters| && q.shuttingDown == p.shuttingDown && q.popped == p.popped
      && (forall v | 0 <= v < |p.submitters| && v != u :: q.submitters[v] == p.submitters[v])
      && (p.shuttingDown ==> q.submitters[u] == Rejected && q.queue == p.queue && q.accepted == p.accepted)
      && (!p.shuttingDown && |p.queue| != p.qcap ==>
            q.submitters[u] == Accepted && q.queue == p.queue + [t] && q.accepted == p.accepted + [t])
      && (!p.shuttingDown && |p.queue| == p.qcap ==>
            q.submitters[u] == Blocked(t) && q.queue == p.queue && q.accepted == p.accepted)
  {
  }

  /** A worker that holds the lock takes the oldest ticket and lets a waiting submitter go on; at an empty queue it
      waits before shutdown and exits after it. */
  lemma WorkerTurnDoes(p: Pool, w: nat, pick: nat)
    requires Enabled(p, WorkerTurn(w, pick))
    ensures var q := Step(p, WorkerTurn(w, pick));
      && |q.workers| == |p.workers| && q.shuttingDown == p.shuttingDown && q.accepted == p.accepted
      && (forall v | 0 <= v < |p.workers| && v != w :: q.workers[v] == p.workers[v])
      && (p.queue != [] ==>
            && q.workers[w] == Handling(p.queue[0]) && p.queue == [p.queue[0]] + q.queue
            && q.popped == p.popped + [p.queue[0]])
      && (p.queue == [] && !p.shuttingDown ==> q.workers[w] == Waiting && q.queue == [] && q.popped == p.popped)
      && (p.queue == [] && p.shuttingDown ==> q.workers[w] == Exited && q.queue == [] && q.popped == p.popped)
  {
  }

  /** A submission is rejected only after shutdown. */
  ghost predicate RejectedLate(p: Pool) {
    (exists u :: 0 <= u < |p.submitters| && p.submitters[u].Rejected?) ==> p.shuttingDown
  }

  lemma StepRejectedLate(p: Pool, a: Action)
    requires RejectedLate(p) && Enabled(p, a)
    ensures RejectedLate(Step(p, a))
  {
  }

  /** In every run, while the pool is not shutting down each submission has been accepted or is still open. */
  lemma {:induction false} RejectedOnlyAfterShutdown(p: Pool, actions: seq<Action>)
    requires RejectedLate(p) && CanRun(p, actions)
    ensures RejectedLate(After(p, actions))
    decreases |actions|
  {
    hide RejectedLate, Enabled, Step;
    if actions != [] {
      StepRejectedLate(p, actions[0]);
      RejectedOnlyAfterShutdown(Step(p, actions[0]), actions[1..]);
    }
  }

  lemma NothingRejectedBefore(workers: nat, qcap: nat, actions: seq<Action>)
    requires CanRun(Create(workers, qcap), actions) && !After(Create(workers, qcap), actions).shuttingDown
    ensures var p := After(Create(workers, qcap), actions);
      forall u | 0 <= u < |p.submitters| :: p.submitters[u] != Rejected
  {
    RejectedOnlyAfterShutdown(Create(workers, qcap), actions);
  }

  // Progress

  /** A step that is not a spurious wakeup, a new call, or the shutdown request. */
  predicate Progresses(a: Action) {
    a.WorkerTurn? || a.HandlerReturns? || a.SubmitterTurn?
  }

  /** Some submission or some accepted ticket is not finished. */
  ghost predicate Unfinished(p: Pool) {
    || p.queue != []
    || (exists w :: 0 <= w < |p.workers| && p.workers[w].Handling?)
    || (exists u :: 0 <= u < |p.submitters| && p.submitters[u] != Accepted && p.submitters[u] != Rejected)
  }

  lemma {:induction false} SomeSignalled(ws: seq<Worker>)
    requires SignalledWorkers(ws) > 0
    ensures exists k :: 0 <= k < |ws| && ws[k].Signalled?
    decreases |ws|
  {
    var n := |ws| - 1;
    if ws[n].Signalled? {
    } else {
      SomeSignalled(ws[..n]);
      var k :| 0 <= k < n && ws[..n][k].Signalled?;
      assert ws[k].Signalled?;
    }
  }

  lemma {:induction false} SomeWoken(us: seq<Submitter>)
    requires WokenSubmitters(us) > 0
    ensures exists k :: 0 <= k < |us| && us[k].Woken?
    decreases |us|
  {
    var n := |us| - 1;
    if us[n].Woken? {
    } else {
      SomeWoken(us[..n]);
      var k :| 0 <= k < n && us[..n][k].Woken?;
      assert us[k].Woken?;
    }
  }

  lemma WorkerCanMove(p: Pool, w: nat) returns (a: Action)
    requires w < |p.workers| && !p.workers[w].Waiting? && !p.workers[w].Exited?
    ensures Enabled(p, a) && (a.HandlerReturns? || a.WorkerTurn?) && a.w == w
  {
    if p.workers[w].Handling? {
      a := HandlerReturns(w);
    } else if exists k :: 0 <= k < |p.submitters| && p.submitters[k].Blocked? {
      var k :| 0 <= k < |p.submitters| && p.submitters[k].Blocked?;
      a := WorkerTurn(w, k);
    } else {
      a := WorkerTurn(w, 0);
    }
  }

  lemma SubmitterCanMove(p: Pool, u: nat) returns (a: Action)
    requires u < |p.submitters| && (p.submitters[u].Entering? || p.submitters[u].Woken?)
    ensures Enabled(p, a) && a.SubmitterTurn? && a.u == u
  {
    if exists k :: 0 <= k < |p.workers| && p.workers[k].Waiting? {
      var k :| 0 <= k < |p.workers| && p.workers[k].Waiting?;
      a := SubmitterTurn(u, k);
    } else {
      a := SubmitterTurn(u, 0);
    }
  }

  /** A pool with work in its queue has a worker that can move: the waiting ones have been signalled. */
  lemma QueueCanMove(p: Pool) returns (a: Action)
    requires Inv(p) && p.workers != [] && p.queue != []
    ensures Enabled(p, a) && Progresses(a)
  {
    var w := 0;
    if p.workers[0].Waiting? {
      SomeSignalled(p.workers);
      w :| 0 <= w < |p.workers| && p.workers[w].Signalled?;
    }
    a := WorkerCanMove(p, w);
  }

  /** No deadlock: while anything is unfinished, some thread can take a real step without a spurious wakeup. */
  lemma NoDeadlock(p: Pool) returns (a: Action)
    requires Inv(p) && p.workers != [] && p.qcap > 0 && Unfinished(p)
    ensures Enabled(p, a) && Progresses(a)
  {
    if p.queue != [] {
      a := QueueCanMove(p);
    } else if w :| 0 <= w < |p.workers| && p.workers[w].Handling? {
      a := WorkerCanMove(p, w);
    } else {
      var u :| 0 <= u < |p.submitters| && p.submitters[u] != Accepted && p.submitters[u] != Rejected;
      if p.submitters[u].Blocked? {
        SomeWoken(p.submitters);
        u :| 0 <= u < |p.submitters| && p.submitters[u].Woken?;
      }
      a := SubmitterCanMove(p, u);
    }
  }

  // Shutdown

  function WorkerSteps(actions: seq<Action>): nat {
    if actions == [] then 0
    else (if actions[0].WorkerTurn? || actions[0].HandlerReturns? then 1 else 0) + WorkerSteps(actions[1..])
  }

  /** After shutdown each step of a worker uses up one unit of the measure, and no other step changes it. */
  lemma StepMeasure(p: Pool, a: Action)
    requires Inv(p) && p.shuttingDown && Enabled(p, a)
    ensures (if a.WorkerTurn? || a.HandlerReturns? then 1 else 0) + Measure(Step(p, a)) == Measure(p)
  {
    hide Efforts, NoLostWakeups, Conserved, Handed, InHands;
    var q := Step(p, a);
    match a
    case WorkerTurn(w, pick) => WorkerChanged(p.workers, w, q.workers[w]);
    case HandlerReturns(w) => WorkerChanged(p.workers, w, Running);
    case WorkerWakes(w) => WorkerChanged(p.workers, w, Signalled);
    case Shutdown => BroadcastKeeps(p.workers);
    case NewSubmitter(_, _) =>
    case SubmitterTurn(_, _) =>
    case SubmitterWakes(_) =>
  }

  /** Shutdown terminates: however the steps interleave, the workers take exactly as many of them as the measure has
      lost. */
  lemma {:induction false} ShutdownTerminates(p: Pool, actions: seq<Action>)
    requires Inv(p) && p.shuttingDown && CanRun(p, actions)
    ensures After(p, actions).shuttingDown && After(p, actions).accepted == p.accepted
    ensures WorkerSteps(actions) + Measure(After(p, actions)) == Measure(p)
    decreases |actions|
  {
    hide Inv, Enabled, Step, Measure;
    if actions != [] {
      StepInv(p, actions[0]);
      StepMeasure(p, actions[0]);
      StepShape(p, actions[0]);
      ShutdownTerminates(Step(p, actions[0]), actions[1..]);
    }
  }

  /** After shutdown no worker is left waiting: each one that has not exited can take a step, which uses up the
      measure. */
  lemma EveryoneCanMove(p: Pool, w: nat) returns (a: Action)
    requires Inv(p) && p.shuttingDown && w < |p.workers| && !p.workers[w].Exited?
    ensures Enabled(p, a) && (a.HandlerReturns? || a.WorkerTurn?) && a.w == w
    ensures Measure(Step(p, a)) < Measure(p)
  {
    a := WorkerCanMove(p, w);
    StepMeasure(p, a);
  }

  /** Nor is a submitter: each open submission can take a step, which rejects it. */
  lemma EverySubmitterCanLeave(p: Pool, u: nat) returns (a: Action)
    requires Inv(p) && p.shuttingDown && u < |p.submitters|
    requires p.submitters[u] != Accepted && p.submitters[u] != Rejected
    ensures Enabled(p, a) && a.SubmitterTurn? && a.u == u && Step(p, a).submitters[u] == Rejected
  {
    assert Draining(p) && !p.submitters[u].Blocked?;
    a := SubmitterCanMove(p, u);
  }

  /** A worker exits only from an empty queue, and that queue stays empty. */
  lemma ExitedStaysEmpty(p: Pool, actions: seq<Action>, w: nat)
    requires Inv(p) && CanRun(p, actions) && w < |p.workers| && p.workers[w].Exited?
    ensures var q := After(p, actions);
      q.queue == [] && q.accepted == p.accepted && w < |q.workers| && q.workers[w].Exited?
  {
    RunInv(p, actions);
    RunShape(p, actions);
  }

  lemma {:induction false} MeasureZero(ws: seq<Worker>)
    requires Efforts(ws) == 0
    ensures forall k | 0 <= k < |ws| :: ws[k].Exited?
    decreases |ws|
  {
    if ws != [] {
      MeasureZero(ws[..|ws| - 1]);
    }
  }

  /** Draining: the measure is used up exactly when every worker has exited, and then every accepted ticket has been
      handled exactly once. */
  lemma Drained(p: Pool)
    requires Inv(p) && p.workers != []
    ensures Measure(p) == 0 <==> forall k | 0 <= k < |p.workers| :: p.workers[k].Exited?
    ensures Measure(p) == 0 ==> p.queue == [] && p.popped == p.accepted && multiset(p.handled) == multiset(p.accepted)
  {
    if forall k | 0 <= k < |p.workers| :: p.workers[k].Exited? {
      assert p.workers[0].Exited?;
      NoEffort(p.workers);
    }
    if Measure(p) == 0 {
      MeasureZero(p.workers);
      NoHands(p.workers);
      assert multiset(p.handled) + multiset{} == multiset(p.handled);
    }
  }

  lemma {:induction false} NoEffort(ws: seq<Worker>)
    requires forall k | 0 <= k < |ws| :: ws[k].Exited?
    ensures Efforts(ws) == 0
    decreases |ws|
  {
    if ws != [] {
      NoEffort(ws[..|ws| - 1]);
    }
  }
}
