/** The connection pool's fields and the code that changes them, each lock-held section
    a step of the pool machine, and the wrapper that gives a connection back once. */
module ConnectionPool {
  import opened Basics
  import opened PoolMachine

  function Living(s: seq<Connection>, alive: Connection -> bool): seq<Connection> {
    if s == [] then [] else (if alive(s[0]) then [s[0]] else []) + Living(s[1..], alive)
  }

  lemma LivingStep(s: seq<Connection>, i: nat, survivors: seq<Connection>, alive: Connection -> bool)
    requires i < |s|
    ensures survivors + Living(s[i..], alive)
         == (if alive(s[i]) then survivors + [s[i]] else survivors) + Living(s[i + 1..], alive)
  {
    assert s[i..][1..] == s[i + 1..];
  }

  lemma {:induction false} LivingNone(s: seq<Connection>, alive: Connection -> bool)
    ensures Living([], alive) == [] && s[0..] == s && [] + Living(s, alive) == Living(s, alive)
  {
  }

  lemma RunMore(p: Pool, events: seq<Event>, e: Event)
    ensures Run(p, events + [e]) == Step(Run(p, events), e)
    ensures Run(p, []) == p && [] + [e] == [e]
  {
    assert (events + [e])[..|events|] == events;
  }

  lemma BuryKeepsPass(p: Pool, c: Connection)
    ensures Step(p, Bury(c)).pass == p.pass
  {
  }

  lemma EmptyQueue(p: Pool, look: Connection -> Entry, late: bool)
    requires p.idle == []
    ensures Acquired(p, look, late) ==
            if late then (p.(shuttingDown := true), NoConnection)
            else if p.inFlight > 0 then (p, WaitsForPass)
            else if p.size < p.maxSize then (p.(size := p.size + 1, creating := p.creating + 1), Creates)
            else (p, ShouldNotHappen)
  {
  }

  class UDTConnectionPool {
    const maxSize: nat
    var currentSize: nat
    var available: seq<Connection>
    var keepAliveInFlight: nat
    var shuttingDown: bool
    /** The machine state these fields are part of. */
    ghost var machine: Pool

    ghost predicate Mirrors()
      reads this
    {
      && machine.maxSize == maxSize && machine.size == currentSize
      && machine.idle == available && machine.inFlight == keepAliveInFlight && machine.shuttingDown == shuttingDown
    }

    ghost predicate Shows()
      reads this
    {
      Conserved(machine) && Mirrors()
    }

    constructor (max: nat)
      ensures Shows() && machine == Empty(max) && maxSize == max
    {
      maxSize, currentSize, available, keepAliveInFlight, shuttingDown := max, 0, [], 0, false;
      machine := Empty(max);
    }

    /** The loop over the queue: the outcome, if an entry decides it. */
    method TakeFromQueue(look: Connection -> Entry, late: bool) returns (decided: Option<Outcome>)
      requires Mirrors() && !shuttingDown
      modifies this
      ensures Mirrors() && !shuttingDown
      ensures match decided
              case Some(outcome) => (machine, outcome) == Acquired(old(machine), look, late)
              case None => available == [] && Acquired(machine, look, late) == Acquired(old(machine), look, late)
    {
      while available != []
        invariant Mirrors() && !shuttingDown
        invariant Acquired(machine, look, late) == Acquired(old(machine), look, late)
        decreases |available|
      {
        var c := available[0];
        var entry := look(c);
        available := available[1..];
        if !entry.Dead? {
          machine := Acquired(machine, look, late).0;
          return Some(if entry.Live? then Took(c) else Threw);
        }
        if currentSize > 0 {
          currentSize := currentSize - 1;
        }
        machine := Discarded(machine);
      }
      decided := None;
    }

    /** The lock-held part of acquire, from the wait condition to the reservation.
        `late` says that shutdown begins while entries are being discarded. */
    method AcquireLocked(look: Connection -> Entry, late: bool) returns (outcome: Outcome)
      requires Shows()
      modifies this
      ensures Shows() && machine == Step(old(machine), Acquire(look, late))
      ensures outcome == AcquireStep(old(machine), look, late).1 && !outcome.ShouldNotHappen?
      ensures outcome.Took? ==> Placed(machine, outcome.c, CheckedOut)
    {
      StepConserves(machine, Acquire(look, late));
      if shuttingDown {
        return NoConnection;
      }
      if available == [] && currentSize >= maxSize {
        return TimesOut;
      }
      AcquiredConserves(machine, look, late);
      hide Conserved, Acquired;
      var decided := TakeFromQueue(look, late);
      if decided.Some? {
        return decided.value;
      }
      EmptyQueue(machine, look, late);
      ghost var goal := Acquired(machine, look, late);
      if late {
        shuttingDown := true;
      }
      if shuttingDown {
        outcome := NoConnection;
      } else if keepAliveInFlight > 0 {
        outcome := WaitsForPass;
      } else if currentSize < maxSize {
        currentSize := currentSize + 1;
        outcome := Creates;
      } else {
        outcome := ShouldNotHappen;
      }
      machine := goal.0;
    }

    /** An exception out of the creation, or out of wrapping the new connection: the
        reserved slot is not given back. */
    ghost method CreationThrew()
      requires Shows() && machine.creating > 0
      modifies this`machine
      ensures Shows() && machine == Step(old(machine), CreationThrows)
      ensures currentSize == |machine.place| + machine.creating + machine.lost || machine.drained
    {
      StepConserves(machine, CreationThrows);
      machine := Step(machine, CreationThrows);
    }

    method CreateFailed()
      requires Shows() && machine.creating > 0
      modifies this
      ensures Shows() && machine == Step(old(machine), CreationFailed)
    {
      StepConserves(machine, CreationFailed);
      if currentSize > 0 {
        currentSize := currentSize - 1;
      }
      machine := Step(machine, CreationFailed);
    }

    ghost method CreateSucceeded(c: Connection)
      requires Shows() && machine.creating > 0 && c !in machine.place
      modifies this`machine
      ensures Shows() && machine == Step(old(machine), Created(c)) && Placed(machine, c, CheckedOut)
    {
      StepConserves(machine, Created(c));
      machine := Step(machine, Created(c));
    }

    /** release: without shutdown the connection goes back to the queue, otherwise it is
        counted out. The shutdown test is a step of its own. */
    method Release(c: Connection)
      requires Shows() && Placed(machine, c, CheckedOut)
      modifies this
      ensures Shows()
      ensures machine == if old(shuttingDown) then Step(Step(old(machine), GiveBack(c, true)), Bury(c))
                         else Step(Step(old(machine), GiveBack(c, true)), Push(c))
      ensures !old(shuttingDown) ==> available == old(available) + [c] && currentSize == old(currentSize)
    {
      StepConserves(machine, GiveBack(c, true));
      machine := Step(machine, GiveBack(c, true));
      if shuttingDown {
        HandleDeadConnection(c);
        return;
      }
      StepConserves(machine, Push(c));
      if currentSize <= maxSize {
        available := available + [c];
      } else {
        // The pool is never overbooked, so the connection is never closed here.
        assert false;
      }
      machine := Step(machine, Push(c));
    }

    method HandleDeadConnection(c: Connection)
      requires Shows() && Placed(machine, c, Dying)
      modifies this
      ensures Shows() && machine == Step(old(machine), Bury(c))
      ensures shuttingDown == old(shuttingDown) && available == old(available)
      ensures currentSize == Decremented(old(currentSize))
    {
      StepConserves(machine, Bury(c));
      if currentSize > 0 {
        currentSize := currentSize - 1;
      }
      machine := Step(machine, Bury(c));
    }

    /** First lock-held section of a keep-alive pass: the whole queue is taken. */
    method TakeSnapshot() returns (snapshot: seq<Connection>)
      requires Shows() && machine.pass.None? && !shuttingDown && available != []
      modifies this
      ensures Shows() && machine == Step(old(machine), PassBegins)
      ensures snapshot == old(available) && available == [] && !shuttingDown
      ensures machine.pass == Some(Pass(snapshot, [], false))
    {
      StepConserves(machine, PassBegins);
      snapshot := available;
      available := [];
      machine := Step(machine, PassBegins);
    }

    method CountSnapshot(size: nat)
      requires Shows() && machine.pass.Some? && !machine.pass.value.counted && size == |machine.pass.value.pending|
      modifies this
      ensures Shows() && machine == Step(old(machine), PassCounts)
      ensures available == old(available) && shuttingDown == old(shuttingDown)
      ensures machine.pass == Some(old(machine).pass.value.(counted := true))
    {
      StepConserves(machine, PassCounts);
      keepAliveInFlight := keepAliveInFlight + size;
      machine := Step(machine, PassCounts);
    }

    /** Probing one entry outside the lock. A dead one is about to be counted out. */
    method Probe(c: Connection, alive: bool)
      requires Shows() && machine.pass.Some? && machine.pass.value.counted
      requires machine.pass.value.pending != [] && machine.pass.value.pending[0] == c
      modifies this
      ensures Shows() && machine == Step(old(machine), PassProbes(alive))
      ensures available == old(available) && shuttingDown == old(shuttingDown)
      ensures var pass := old(machine).pass.value;
              machine.pass == Some(Pass(pass.pending[1..],
                                           if alive then pass.survivors + [c] else pass.survivors, true))
      ensures !alive ==> Placed(machine, c, Dying)
    {
      assert c in Held(machine);
      StepConserves(machine, PassProbes(alive));
      keepAliveInFlight := keepAliveInFlight - 1;
      machine := Step(machine, PassProbes(alive));
    }

    /** Last lock-held section: the survivors go back, unless shutdown has begun. */
    method ReturnSurvivors(survivors: seq<Connection>) returns (returned: bool)
      requires Shows() && machine.pass == Some(Pass([], survivors, true))
      modifies this
      ensures Shows() && machine == Step(old(machine), PassEnds) && machine.pass.None? && keepAliveInFlight == 0
      ensures returned == !shuttingDown == !old(shuttingDown)
      ensures available == if returned then old(available) + survivors else old(available)
    {
      StepConserves(machine, PassEnds);
      returned := !shuttingDown;
      if returned {
        available := available + survivors;
      }
      machine := Step(machine, PassEnds);
    }

    /** One round of the pass: a live entry survives, a dead one is counted out. */
    method ProbeEntry(c: Connection, alive: bool, survivors: seq<Connection>,
          ghost start: Pool, ghost before: seq<Event>)
      returns (survivors': seq<Connection>, ghost events: seq<Event>)
      requires Shows() && machine.pass.Some? && machine.pass.value.counted && machine.pass.value.survivors == survivors
      requires machine.pass.value.pending != [] && machine.pass.value.pending[0] == c
      requires machine == Run(start, before)
      modifies this
      ensures Shows() && machine == Run(start, events)
      ensures available == old(available) && shuttingDown == old(shuttingDown)
      ensures survivors' == if alive then survivors + [c] else survivors
      ensures machine.pass == Some(Pass(old(machine).pass.value.pending[1..], survivors', true))
    {
      hide Step, Run, Conserved;
      RunMore(start, before, PassProbes(alive));
      Probe(c, alive);
      survivors', events := survivors, before + [PassProbes(alive)];
      if alive {
        survivors' := survivors + [c];
      } else {
        RunMore(start, events, Bury(c));
        BuryKeepsPass(machine, c);
        HandleDeadConnection(c);
        events := events + [Bury(c)];
      }
    }

    /** The pass as one thread runs it when nothing else intervenes and nothing throws:
        live entries return to the queue in order, dead ones are counted out. */
    method PerformKeepAlivePass(alive: Connection -> bool) returns (ghost events: seq<Event>)
      requires Shows() && machine.pass.None? && keepAliveInFlight == 0
      modifies this
      ensures Shows() && machine.pass.None? && keepAliveInFlight == 0
      ensures machine == Run(old(machine), events)
      ensures !shuttingDown ==> available == Living(old(available), alive)
    {
      ghost var start := machine;
      events := [];
      LivingNone(available, alive);
      if shuttingDown || available == [] {
        return;
      }
      RunMore(start, [], PassBegins);
      var snapshot := TakeSnapshot();
      RunMore(start, [PassBegins], PassCounts);
      CountSnapshot(|snapshot|);
      events := [PassBegins] + [PassCounts];
      hide Step, Run, Conserved, Shows, Living;
      var survivors: seq<Connection> := [];
      var i := 0;
      while i < |snapshot|
        invariant 0 <= i <= |snapshot| && Shows() && !shuttingDown && available == []
        invariant machine.pass == Some(Pass(snapshot[i..], survivors, true))
        invariant survivors + Living(snapshot[i..], alive) == Living(snapshot, alive)
        invariant machine == Run(start, events)
      {
        var c := snapshot[i];
        assert snapshot[i..][1..] == snapshot[i + 1..];
        LivingStep(snapshot, i, survivors, alive);
        survivors, events := ProbeEntry(c, alive(c), survivors, start, events);
        i := i + 1;
      }
      assert snapshot[i..] == [];
      RunMore(start, events, PassEnds);
      var returned := ReturnSurvivors(survivors);
      events := events + [PassEnds];
    }

    /** Shutdown, once the keep-alive thread has been joined. */
    method Shutdown()
      requires Shows() && machine.pass.None? && (!shuttingDown ==> !machine.drained)
      modifies this
      ensures Shows() && shuttingDown
      ensures old(shuttingDown) ==> machine == old(machine)
      ensures !old(shuttingDown) ==>
                machine == Step(Step(old(machine), BeginShutdown), Drain) && currentSize == 0 && available == []
    {
      if shuttingDown {
        return;
      }
      StepConserves(machine, BeginShutdown);
      shuttingDown := true;
      machine := Step(machine, BeginShutdown);
      StepConserves(machine, Drain);
      while available != []
        decreases |available|
        invariant machine == Step(old(machine), BeginShutdown) && shuttingDown && keepAliveInFlight == machine.inFlight
      {
        available := available[1..];
      }
      currentSize := 0;
      machine := Step(machine, Drain);
    }
  }

  /** The wrapper a connection is handed out in. */
  class PooledConnection {
    const pool: UDTConnectionPool
    var connection: Option<Connection>
    var movedOut: bool

    ghost predicate Owns()
      reads this, pool
    {
      !movedOut && connection.Some? ==> pool.Shows() && Placed(pool.machine, connection.value, CheckedOut)
    }

    constructor (owner: UDTConnectionPool, c: Connection)
      requires owner.Shows() && Placed(owner.machine, c, CheckedOut)
      ensures pool == owner && connection == Some(c) && !movedOut && Owns()
    {
      pool, connection, movedOut := owner, Some(c), false;
    }

    /** Moving: the new wrapper takes over, and the old one no longer gives back. */
    constructor Move(other: PooledConnection)
      requires other.Owns()
      modifies other
      ensures pool == other.pool && connection == old(other.connection) && movedOut == old(other.movedOut)
      ensures other.movedOut && other.connection.None? && Owns()
    {
      pool, connection, movedOut := other.pool, other.connection, other.movedOut;
      new;
      other.connection, other.movedOut := None, true;
    }

    /** Giving back happens at most once per wrapper: a second call changes nothing. */
    method Release(connected: bool)
      requires Owns()
      modifies this, pool
      ensures !movedOut || old(movedOut) ==> pool.machine == old(pool.machine)
      ensures old(movedOut) || old(connection).None? ==> pool.machine == old(pool.machine) && movedOut == old(movedOut)
      ensures !old(movedOut) && old(connection).Some? ==>
                && movedOut && connection.None? && pool.Shows()
                && !Placed(pool.machine, old(connection).value, CheckedOut)
                && pool.available == (if connected && !old(pool.shuttingDown)
                                      then old(pool.available) + [old(connection).value] else old(pool.available))
                && pool.currentSize == (if connected && !old(pool.shuttingDown)
                                        then old(pool.currentSize) else Decremented(old(pool.currentSize)))
    {
      if !movedOut && connection.Some? {
        var c := connection.value;
        if connected {
          pool.Release(c);
        } else {
          StepConserves(pool.machine, GiveBack(c, false));
          pool.machine := Step(pool.machine, GiveBack(c, false));
          pool.HandleDeadConnection(c);
        }
        movedOut, connection := true, None;
      }
    }
  }
}
