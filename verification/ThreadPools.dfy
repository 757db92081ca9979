/** The bounded thread pool as lock-held steps of submitters, workers and stoppers. */
module ThreadPools {
  import opened Basics

  type Task = nat

  /** A worker waits, runs the task with this acceptance number, or has returned. */
  datatype Worker = Waiting | Running(index: nat) | Returned

  /** `tasks` is the queue. `accepted`, `started` and `finished` are history: every
      task ever accepted, how many were dequeued, and the acceptance numbers of
      those run to their end, in order. `joined` counts workers the stopping call
      has joined so far. */
  datatype Pool = Pool(
    capacity: nat, tasks: seq<Task>, stopped: bool, workers: seq<Worker>,
    accepted: seq<Task>, started: nat, finished: seq<nat>, joined: nat, stopReturned: bool)

  datatype Event =
    | Add(task: Task)
    | Take(worker: nat)       // wait condition met: dequeue, or return when stopped and empty
    | Finish(worker: nat)     // the task returned or threw
    | Stop
    | Join                    // the stopping call joins its next worker

  function DefaultLimit(numThreads: nat): nat { Max(numThreads * 64, 1) }

  function Fresh(numThreads: nat, maxPending: nat): Pool {
    Pool(if maxPending == 0 then DefaultLimit(numThreads) else maxPending, [], false,
         seq(numThreads, _ => Waiting), [], 0, [], 0, false)
  }

  predicate CanAdd(p: Pool) { !p.stopped && |p.tasks| < p.capacity }

  function Step(p: Pool, e: Event): Pool {
    match e
    case Add(task) =>
      if CanAdd(p) then p.(tasks := p.tasks + [task], accepted := p.accepted + [task]) else p
    case Take(w) =>
      if w >= |p.workers| || !p.workers[w].Waiting? || (!p.stopped && p.tasks == []) then p
      else if p.tasks == [] then p.(workers := p.workers[w := Returned])
      else p.(tasks := p.tasks[1..], workers := p.workers[w := Running(p.started)], started := p.started + 1)
    case Finish(w) =>
      if w < |p.workers| && p.workers[w].Running? then
        p.(workers := p.workers[w := Waiting], finished := p.finished + [p.workers[w].index])
      else p
    case Stop => p.(stopped := true)
    case Join =>
      if p.stopped && p.joined < |p.workers| && p.workers[p.joined].Returned? then
        p.(joined := p.joined + 1, stopReturned := p.joined + 1 == |p.workers|)
      else p
  }

  function Run(p: Pool, events: seq<Event>): Pool
    decreases |events|
  {
    if events == [] then p else Step(Run(p, events[..|events| - 1]), events[|events| - 1])
  }

  ghost predicate Distinct(s: seq<nat>) {
    forall i, j :: 0 <= i < j < |s| ==> s[i] != s[j]
  }

  /** Is some worker running task i? */
  ghost predicate Busy(p: Pool, i: nat) {
    exists w :: 0 <= w < |p.workers| && p.workers[w] == Running(i)
  }

  /** The queue is what was accepted and not yet dequeued; every dequeued task is
      finished or with exactly one worker; nobody returns before the queue of a
      stopped pool is empty. */
  ghost predicate Orderly(p: Pool) {
    && p.started <= |p.accepted| && p.tasks == p.accepted[p.started..]
    && |p.tasks| <= p.capacity
    && Distinct(p.finished)
    && (forall i :: i in p.finished ==> i < p.started && !Busy(p, i))
    && (forall w :: 0 <= w < |p.workers| && p.workers[w].Running? ==> p.workers[w].index < p.started)
    && (forall v, w :: 0 <= v < w < |p.workers| && p.workers[v].Running? ==> p.workers[v] != p.workers[w])
    && (forall i :: 0 <= i < p.started ==> i in p.finished || Busy(p, i))
    && (forall w :: 0 <= w < |p.workers| && p.workers[w].Returned? ==> p.stopped && p.tasks == [])
    && p.joined <= |p.workers|
    && (forall w :: 0 <= w < p.joined ==> p.workers[w].Returned?)
    && (p.stopReturned ==> p.stopped && p.joined == |p.workers|)
  }

  lemma TakeKeepsOrderly(p: Pool, w: nat)
    requires Orderly(p) && w < |p.workers| && p.workers[w].Waiting? && p.tasks != []
    ensures Orderly(Step(p, Take(w)))
  {
    var q := Step(p, Take(w));
    assert q.workers[w] == Running(p.started);
    forall i ensures Busy(q, i) <==> Busy(p, i) || i == p.started {
      if v :| 0 <= v < |p.workers| && p.workers[v] == Running(i) {
        assert q.workers[v] == Running(i);
      }
      if v :| 0 <= v < |q.workers| && q.workers[v] == Running(i) && v != w {
        assert p.workers[v] == Running(i);
      }
    }
    assert Busy(q, p.started);
  }

  lemma ReturnKeepsOrderly(p: Pool, w: nat)
    requires Orderly(p) && w < |p.workers| && p.workers[w].Waiting? && p.stopped && p.tasks == []
    ensures Orderly(Step(p, Take(w)))
  {
    var q := Step(p, Take(w));
    forall i ensures Busy(q, i) <==> Busy(p, i) {
      if v :| 0 <= v < |p.workers| && p.workers[v] == Running(i) {
        assert q.workers[v] == Running(i);
      }
    }
  }

  lemma FinishKeepsOrderly(p: Pool, w: nat)
    requires Orderly(p) && w < |p.workers| && p.workers[w].Running?
    ensures Orderly(Step(p, Finish(w)))
  {
    var q := Step(p, Finish(w));
    var done := p.workers[w].index;
    assert Busy(p, done);
    forall i ensures Busy(q, i) <==> Busy(p, i) && i != done {
      if v :| 0 <= v < |p.workers| && p.workers[v] == Running(i) {
        if i != done {
          assert q.workers[v] == Running(i);
        }
      }
      if v :| 0 <= v < |q.workers| && q.workers[v] == Running(i) {
        assert p.workers[v] == Running(i) && v != w;
      }
    }
  }

  lemma StepKeepsOrderly(p: Pool, e: Event)
    requires Orderly(p)
    ensures Orderly(Step(p, e))
  {
    match e
    case Take(w) =>
      if w < |p.workers| && p.workers[w].Waiting? {
        if p.tasks != [] {
          TakeKeepsOrderly(p, w);
        } else if p.stopped {
          ReturnKeepsOrderly(p, w);
        }
      }
    case Finish(w) =>
      if w < |p.workers| && p.workers[w].Running? {
        FinishKeepsOrderly(p, w);
      }
    case _ =>
      var q := Step(p, e);
      assert forall i :: Busy(q, i) <==> Busy(p, i);
  }

  lemma {:induction false} RunKeepsOrderly(numThreads: nat, maxPending: nat, events: seq<Event>)
    ensures Orderly(Run(Fresh(numThreads, maxPending), events))
    decreases |events|
  {
    if events != [] {
      RunKeepsOrderly(numThreads, maxPending, events[..|events| - 1]);
      StepKeepsOrderly(Run(Fresh(numThreads, maxPending), events[..|events| - 1]), events[|events| - 1]);
    }
  }

  // ---------- Main results ----------

  /** Under every interleaving the queue stays within its capacity and is the accepted
      tasks not yet dequeued, oldest first. */
  lemma BoundedAndFair(numThreads: nat, maxPending: nat, events: seq<Event>, w: nat)
    ensures var p := Run(Fresh(numThreads, maxPending), events);
            && |p.tasks| <= p.capacity && p.started <= |p.accepted|
            && p.accepted == p.accepted[..p.started] + p.tasks
            && (w < |p.workers| && p.workers[w].Waiting? && p.tasks != [] ==>
                  Step(p, Take(w)).workers[w] == Running(p.started) && p.accepted[p.started] == p.tasks[0])
  {
    RunKeepsOrderly(numThreads, maxPending, events);
  }

  ghost predicate AllRanOnce(p: Pool) {
    Distinct(p.finished) && forall i :: 0 <= i < |p.accepted| <==> i in p.finished
  }

  /** In a reachable state every accepted task has run exactly once precisely when the
      queue is empty and no worker is running. */
  lemma AllRanIff(numThreads: nat, maxPending: nat, events: seq<Event>)
    ensures var p := Run(Fresh(numThreads, maxPending), events);
            AllRanOnce(p) <==> p.tasks == [] && forall w :: 0 <= w < |p.workers| ==> !p.workers[w].Running?
  {
    RunKeepsOrderly(numThreads, maxPending, events);
    var p := Run(Fresh(numThreads, maxPending), events);
    if AllRanOnce(p) {
      assert p.started !in p.finished;
      forall w | 0 <= w < |p.workers| ensures !p.workers[w].Running? {
        if p.workers[w].Running? {
          assert Busy(p, p.workers[w].index);
        }
      }
    }
  }

  /** When the stop call that stopped the pool returns, every accepted task has run
      exactly once, and nothing is accepted afterwards. */
  lemma StopRunsEverything(numThreads: nat, maxPending: nat, events: seq<Event>)
    requires Run(Fresh(numThreads, maxPending), events).stopReturned
    requires numThreads > 0
    ensures AllRanOnce(Run(Fresh(numThreads, maxPending), events))
    ensures !CanAdd(Run(Fresh(numThreads, maxPending), events))
  {
    RunKeepsOrderly(numThreads, maxPending, events);
    AllRanIff(numThreads, maxPending, events);
    WorkersFixed(numThreads, maxPending, events);
    var p := Run(Fresh(numThreads, maxPending), events);
    assert p.workers[0].Returned?;
  }

  lemma {:induction false} WorkersFixed(numThreads: nat, maxPending: nat, events: seq<Event>)
    ensures |Run(Fresh(numThreads, maxPending), events).workers| == numThreads
    decreases |events|
  {
    if events != [] {
      WorkersFixed(numThreads, maxPending, events[..|events| - 1]);
    }
  }

  /** A second stop call returns at once, whatever is still queued or running: here
      with an accepted task that has not run. */
  lemma SecondStopReturnsEarly(numThreads: nat, maxPending: nat, task: Task)
    requires numThreads > 0
    ensures var p := Run(Fresh(numThreads, maxPending), [Add(task), Stop]);
            p.stopped && Step(p, Stop) == p && !AllRanOnce(p)
  {
    var start := Fresh(numThreads, maxPending);
    var e1, e2 := Add(task), Stop;
    assert [e1, e2][..1] == [e1] && [e1][..0] == [] && Run(start, []) == start;
    assert Run(start, [e1]) == Step(start, e1);
    var p := Run(start, [e1, e2]);
    assert |p.accepted| == 1 && p.finished == [];
    assert 0 !in p.finished;
  }

  // ---------- The code's own fields ----------

  class ThreadPool {
    const maxPendingTasks: nat
    var tasks: seq<Task>
    var stopped: bool
    ghost var machine: Pool

    ghost predicate Shows()
      reads this
    {
      && Orderly(machine) && machine.capacity == maxPendingTasks > 0
      && machine.tasks == tasks && machine.stopped == stopped && |machine.workers| > 0
    }

    constructor (numThreads: nat, maxPending: nat)
      requires numThreads > 0
      ensures Shows() && machine == Fresh(numThreads, maxPending) && !stopped && tasks == []
    {
      maxPendingTasks := if maxPending == 0 then Max(numThreads * 64, 1) else maxPending;
      tasks, stopped := [], false;
      machine := Fresh(numThreads, maxPending);
      new;
      RunKeepsOrderly(numThreads, maxPending, []);
    }

    /** A pool needs at least one worker. */
    static method Create(numThreads: nat, maxPending: nat) returns (pool: Option<ThreadPool>)
      ensures pool.Some? <==> numThreads > 0
      ensures pool.Some? ==>
                fresh(pool.value) && pool.value.Shows() && pool.value.machine == Fresh(numThreads, maxPending)
                && pool.value.maxPendingTasks == if maxPending == 0 then 64 * numThreads else maxPending
    {
      if numThreads == 0 {
        return None;
      }
      var made := new ThreadPool(numThreads, maxPending);
      pool := Some(made);
    }

    /** Refused when stopped or full; otherwise queued behind everything accepted. */
    method AddTask(task: Task) returns (ok: bool)
      requires Shows()
      modifies this
      ensures Shows() && machine == Step(old(machine), Add(task))
      ensures ok <==> !old(stopped) && |old(tasks)| < maxPendingTasks
      ensures tasks == if ok then old(tasks) + [task] else old(tasks)
      ensures stopped == old(stopped)
    {
      StepKeepsOrderly(machine, Add(task));
      ok := !stopped && |tasks| < maxPendingTasks;
      if ok {
        tasks := tasks + [task];
      }
      machine := Step(machine, Add(task));
    }

    /** One turn of a worker's loop under the lock, once its wait condition holds: it
        returns, or takes the oldest task. */
    method NextTask(ghost w: nat) returns (task: Option<Task>)
      requires Shows() && w < |machine.workers| && machine.workers[w].Waiting?
      requires stopped || tasks != []
      modifies this
      ensures Shows() && machine == Step(old(machine), Take(w))
      ensures task == if old(tasks) == [] then None else Some(old(tasks)[0])
      ensures task.Some? ==> machine.workers[w] == Running(old(machine).started)
                             && task.value == machine.accepted[old(machine).started]
      ensures task.None? ==> machine.workers[w].Returned?
    {
      StepKeepsOrderly(machine, Take(w));
      if stopped && tasks == [] {
        machine := Step(machine, Take(w));
        return None;
      }
      task := Some(tasks[0]);
      tasks := tasks[1..];
      machine := Step(machine, Take(w));
    }

    /** The first part of stop; only the call that makes the transition goes on to join
        the workers. */
    method BeginStop() returns (mustJoin: bool)
      requires Shows()
      modifies this
      ensures Shows() && machine == Step(old(machine), Stop) && stopped && tasks == old(tasks)
      ensures mustJoin <==> !old(stopped)
    {
      StepKeepsOrderly(machine, Stop);
      if stopped {
        return false;
      }
      stopped := true;
      machine := Step(machine, Stop);
      mustJoin := true;
    }

    /** The joining loop of stop, once every worker has returned. */
    method JoinWorkers(ghost count: nat)
      requires Shows() && stopped && machine.joined == 0 && count == |machine.workers|
      requires forall w :: 0 <= w < |machine.workers| ==> machine.workers[w].Returned?
      modifies this`machine
      ensures Shows() && machine.stopReturned && AllRanOnce(machine) && tasks == []
    {
      ghost var i := 0;
      while i < count
        invariant 0 <= i <= count && Shows() && machine.joined == i && count == |machine.workers|
        invariant i == count ==> machine.stopReturned
        invariant forall w :: 0 <= w < |machine.workers| ==> machine.workers[w].Returned?
      {
        StepKeepsOrderly(machine, Join);
        machine := Step(machine, Join);
        i := i + 1;
      }
      assert machine.workers[0].Returned?;
    }
  }
}
