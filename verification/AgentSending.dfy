/** The sending loops of the agent: attempts on one target, the broadcast over all
    targets, and the resend pass over one file. Each is a run of the ledger. */
module AgentSending {
  import opened Basics
  import opened AgentDatabase
  import opened AgentLedger
  import AgentRetries

  /** How one attempt ends: no connection, an error, an acknowledgement, "the file is
      already there", or the service shutting down. */
  datatype Attempt = NoConnection | Errs | Accepts | HasFile | ShutsDown

  /** One target while one chunk is sent: whether its circuit breaker lets the chunk
      through, how each attempt ends, and whether the counter write after a
      failed attempt takes effect. */
  datatype Target = Target(admits: bool, attempts: nat -> Attempt, stored: nat -> bool)

  predicate Fails(a: Attempt) { a.NoConnection? || a.Errs? }

  /** Attempt i is the one that is answered. */
  ghost predicate AnsweredAt(target: Target, maxRetries: nat, i: nat) {
    && target.admits && i < maxRetries && (target.attempts(i).Accepts? || target.attempts(i).HasFile?)
    && forall j :: 0 <= j < i ==> Fails(target.attempts(j))
  }

  /** The result is the first answer within the allowed attempts, or a refusal when
      there is none. */
  ghost predicate IsReply(target: Target, maxRetries: nat, r: SendResult) {
    match r
    case Acknowledged => exists i :: AnsweredAt(target, maxRetries, i) && target.attempts(i).Accepts?
    case AlreadyExists => exists i :: AnsweredAt(target, maxRetries, i) && target.attempts(i).HasFile?
    case Refused => forall i :: !AnsweredAt(target, maxRetries, i)
  }

  method SendChunkToTarget(target: Target, maxRetries: nat) returns (r: SendResult)
    ensures IsReply(target, maxRetries, r)
  {
    if !target.admits {
      return Refused;
    }
    var currentRetry := 0;
    while currentRetry < maxRetries
      invariant currentRetry <= maxRetries
      invariant forall j :: 0 <= j < currentRetry ==> Fails(target.attempts(j))
    {
      match target.attempts(currentRetry) {
        case Accepts =>
          assert AnsweredAt(target, maxRetries, currentRetry);
          return Acknowledged;
        case HasFile =>
          assert AnsweredAt(target, maxRetries, currentRetry);
          return AlreadyExists;
        case ShutsDown => return Refused;
        case _ => currentRetry := currentRetry + 1;
      }
    }
    r := Refused;
  }

  /** Broadcasting one chunk. Every target is tried even after a failure, until a
      shutdown; the outcome is the aggregate of the replies, and unanimous "already
      there" cleans the file up. `running` is polled before each target. */
  method SendChunk(
    db: Database, path: Path, targets: seq<Target>, maxRetries: nat, running: nat -> bool, cleaned: bool)
    returns (r: SendResult, ghost results: seq<SendResult>)
    modifies db
    ensures |results| == |targets| && r == Aggregate(results)
    ensures r.Refused? <==> targets == [] || exists i :: 0 <= i < |results| && results[i].Refused?
    ensures r.AlreadyExists? <==> targets != [] && forall i :: 0 <= i < |results| ==> results[i].AlreadyExists?
    ensures forall i :: 0 <= i < |targets| && (forall j :: 0 <= j <= i ==> running(j))
              ==> IsReply(targets[i], maxRetries, results[i])
    ensures forall i, j :: 0 <= j <= i < |targets| && !running(j) ==> results[i].Refused?
    ensures db.Rows(path) == if r.AlreadyExists? && cleaned then map[] else old(db.Rows(path))
    ensures db.processed == if r.AlreadyExists? && cleaned then old(db.processed) + {path} else old(db.processed)
  {
    results := [];
    if targets == [] {
      return Refused, results;
    }
    var anyFailure, allAlreadyExists := false, true;
    for i := 0 to |targets|
      invariant |results| == i
      invariant anyFailure <==> Refused in results
      invariant allAlreadyExists <==> forall k :: 0 <= k < i ==> results[k].AlreadyExists?
      invariant forall k :: 0 <= k < i ==> running(k) && IsReply(targets[k], maxRetries, results[k])
      invariant db.Rows(path) == old(db.Rows(path)) && db.processed == old(db.processed)
    {
      if !running(i) {
        ghost var rest := seq(|targets| - i, _ => Refused);
        assert rest[0] == Refused && (results + rest)[i] == Refused;
        return Refused, results + rest;
      }
      var result := SendChunkToTarget(targets[i], maxRetries);
      if result.Refused? {
        anyFailure := true;
      }
      if !result.AlreadyExists? {
        allAlreadyExists := false;
      }
      ghost var was := results;
      results := was + [result];
      assert results[i] == result && forall k :: 0 <= k < i ==> results[k] == was[k];
    }
    if anyFailure {
      return Refused, results;
    }
    if allAlreadyExists {
      db.AddProcessedFileAndCleanupChunks(path, cleaned);
      return AlreadyExists, results;
    }
    r := Acknowledged;
  }

  lemma OneReply(target: Target, maxRetries: nat, r: SendResult, r': SendResult)
    requires IsReply(target, maxRetries, r) && IsReply(target, maxRetries, r')
    ensures r == r'
  {
  }

  // ---------- The resend pass ----------

  /** Nothing but the row under n may have changed, and it stands for the same chunk. */
  ghost predicate OnlyRow(rows: ChunkRows, rows': ChunkRows, n: int) {
    && rows'.Keys == rows.Keys
    && (forall m :: m in rows && m != n ==> rows'[m] == rows[m])
    && (n in rows ==> Core(rows'[n]) == Core(rows[n]))
  }

  /** Nothing but the counter of that row may have changed. */
  ghost predicate OnlyCounter(rows: ChunkRows, rows': ChunkRows, n: int) {
    OnlyRow(rows, rows', n) && (n in rows ==> rows'[n].status == rows[n].status)
  }

  /** The tables hold the ledger's rows and status for this file. */
  ghost predicate Mirrors(db: Database, path: Path, l: Ledger)
    reads db
  {
    db.Rows(path) == l.rows && (path in db.processed <==> l.processed)
  }

  /** The events lead from one ledger to the other. */
  ghost predicate Leads(l: Ledger, cfg: Config, events: seq<Event>, l': Ledger) {
    l' == Run(l, cfg, events)
  }

  lemma LeadsNowhere(l: Ledger, cfg: Config)
    ensures Leads(l, cfg, [], l)
  {
  }

  lemma LeadsOneMore(l: Ledger, cfg: Config, events: seq<Event>, l': Ledger, e: Event)
    requires Leads(l, cfg, events, l')
    ensures Leads(l, cfg, events + [e], Step(l', cfg, e))
  {
    assert (events + [e])[..|events|] == events;
  }

  lemma LeadsOn(l: Ledger, cfg: Config, s: seq<Event>, l': Ledger, t: seq<Event>, l'': Ledger)
    requires Leads(l, cfg, s, l') && Leads(l', cfg, t, l'')
    ensures Leads(l, cfg, s + t, l'')
  {
    RunAppend(l, cfg, s, t);
  }

  lemma AttemptSteps(l: Ledger, cfg: Config, flag: bool)
    requires Attempting(l, cfg)
    ensures Step(l, cfg, AttemptFails(flag)) == AttemptFailed(l, flag)
    ensures Step(l, cfg, TargetAnswers(flag)) == Answered(l, flag)
  {
  }

  lemma PassSteps(l: Ledger, cfg: Config, n: int, counted: bool, marked: bool)
    requires n in l.listed && l.current.None?
    ensures Step(l, cfg, ChargeOnce(n, counted, marked)) == ChargedOnce(l, n, counted, marked)
    ensures Step(l, cfg, Resume(n)) == Resumed(l, n)
  {
  }

  lemma BeginPassStep(l: Ledger, cfg: Config)
    requires Idle(l) && cfg.targets > 0
    ensures var l' := Step(l, cfg, BeginPass);
            l'.rows == l.rows && l'.listed == PendingRows(l.rows, cfg.abandonLimit) && l'.current.None?
  {
  }

  lemma AbandonStep(l: Ledger, cfg: Config)
    ensures Step(l, cfg, Abandon) == l.(current := None, listed := map[])
  {
  }

  lemma EndSteps(l: Ledger, cfg: Config, stored: bool)
    requires l.current.Some? && l.current.value.target <= cfg.targets
    ensures l.current.value.target == cfg.targets ==> Step(l, cfg, Conclude(stored)) == Concluded(l, stored)
    ensures l.current.value.target < cfg.targets ==> Step(l, cfg, TargetRefuses(stored)) == RefusedAt(l, stored)
  {
  }

  /** The resend in flight, at target t with no attempt made yet. */
  ghost predicate Resending(l: Ledger, number: int, accumulator: nat, target: nat, allExist: bool) {
    && l.current.Some?
    && l.current.value == Resend(number, l.current.value.row, accumulator, target, 0, allExist)
  }

  /** The failed attempts among the events. */
  function Failures(events: seq<Event>): nat {
    if events == [] then 0 else Failures(events[1..]) + if events[0].AttemptFails? then 1 else 0
  }

  lemma {:induction false} FailuresOneMore(events: seq<Event>, e: Event)
    ensures Failures(events + [e]) == Failures(events) + if e.AttemptFails? then 1 else 0
  {
    if events == [] {
      assert [] + [e] == [e] && [e][1..] == [];
    } else {
      assert (events + [e])[1..] == events[1..] + [e];
      FailuresOneMore(events[1..], e);
    }
  }

  lemma RowsAsBefore(rows: ChunkRows, n: int)
    ensures OnlyCounter(rows, rows, n)
  {
  }

  lemma CounterWrite(start: ChunkRows, rows: ChunkRows, n: int, retries: nat)
    requires OnlyCounter(start, rows, n)
    ensures OnlyCounter(start, WithRetries(rows, n, retries), n)
  {
  }

  lemma OneAfterAnother(a: ChunkRows, b: ChunkRows, c: ChunkRows, n: int)
    requires OnlyCounter(a, b, n) && OnlyCounter(b, c, n)
    ensures OnlyCounter(a, c, n)
  {
  }

  lemma StatusWrite(start: ChunkRows, rows: ChunkRows, n: int, status: AgentDatabase.Status)
    requires OnlyCounter(start, rows, n)
    ensures OnlyRow(start, rows, n)
    ensures OnlyRow(start, WithStatus(rows, n, status), n)
    ensures n in start ==> n in WithStatus(rows, n, status) && WithStatus(rows, n, status)[n].status == status
  {
  }

  /** Attempts on one target for a chunk being resent: each failure is charged to the
      row at once; an answer moves on to the next target. */
  method SendPendingChunkToTarget(
    db: Database, path: Path, target: Target, number: int, start: nat, ghost l: Ledger, cfg: Config,
    ghost t: nat, ghost allExist: bool)
    returns (r: SendResult, retryAccumulator: nat, stopped: bool, ghost events: seq<Event>, ghost l': Ledger)
    requires Mirrors(db, path, l) && t < cfg.targets && Resending(l, number, start, t, allExist)
    modifies db`chunks
    ensures Leads(l, cfg, events, l') && Mirrors(db, path, l') && l'.listed == l.listed
    ensures !r.Refused? ==> Resending(l', number, retryAccumulator, t + 1, allExist && r.AlreadyExists?)
    ensures r.Refused? ==> l'.current.Some? && l'.current.value.number == number && l'.current.value.target == t
    ensures if stopped then r.Refused? else IsReply(target, cfg.maxRetries, r)
    ensures stopped ==> exists j :: target.attempts(j).ShutsDown?
    ensures OnlyCounter(l.rows, l'.rows, number)
    ensures retryAccumulator == start + Failures(events)
    ensures !stopped && target.admits ==>
              && (r.Refused? ==> Failures(events) == cfg.maxRetries)
              && (!r.Refused? ==> AnsweredAt(target, cfg.maxRetries, Failures(events)))
    ensures !target.admits ==> events == []
  {
    hide Run, Step, Charged, Leads, OnlyCounter, WithRetries;
    RowsAsBefore(l.rows, number);
    LeadsNowhere(l, cfg);
    retryAccumulator, stopped, events, l' := start, false, [], l;
    if !target.admits {
      r := Refused;
      return;
    }
    ghost var row := l.current.value.row;
    var attemptsForTarget := 0;
    while attemptsForTarget < cfg.maxRetries
      invariant attemptsForTarget <= cfg.maxRetries && !stopped
      invariant Leads(l, cfg, events, l') && Mirrors(db, path, l') && l'.listed == l.listed
      invariant l'.current == Some(Resend(number, row, retryAccumulator, t, attemptsForTarget, allExist))
      invariant forall j :: 0 <= j < attemptsForTarget ==> Fails(target.attempts(j))
      invariant OnlyCounter(l.rows, l'.rows, number)
      invariant Failures(events) == attemptsForTarget && retryAccumulator == start + attemptsForTarget
    {
      var attempt := target.attempts(attemptsForTarget);
      if attempt.ShutsDown? {
        r, stopped := Refused, true;
        return;
      }
      if attempt.Accepts? || attempt.HasFile? {
        assert AnsweredAt(target, cfg.maxRetries, attemptsForTarget);
        AttemptSteps(l', cfg, attempt.HasFile?);
        FailuresOneMore(events, TargetAnswers(attempt.HasFile?));
        LeadsOneMore(l, cfg, events, l', TargetAnswers(attempt.HasFile?));
        events, l' := events + [TargetAnswers(attempt.HasFile?)], Answered(l', attempt.HasFile?);
        r := if attempt.HasFile? then AlreadyExists else Acknowledged;
        return;
      }
      var stored := target.stored(attemptsForTarget);
      AttemptSteps(l', cfg, stored);
      FailuresOneMore(events, AttemptFails(stored));
      CounterWrite(l.rows, l'.rows, number, retryAccumulator + 1);
      LeadsOneMore(l, cfg, events, l', AttemptFails(stored));
      events, l' := events + [AttemptFails(stored)], AttemptFailed(l', stored);
      attemptsForTarget, retryAccumulator := attemptsForTarget + 1, retryAccumulator + 1;
      db.UpdateChunkRetries(path, number, retryAccumulator, stored);
    }
    r := Refused;
  }

  /** What happens to one listed chunk during a pass: the targets, which of its table
      writes take effect, whether its range can be sought and read, and what the
      successive looks at the running flag see. */
  datatype World = World(
    targets: seq<Target>, statusStored: bool, counted: bool, marked: bool,
    seekable: bool, readable: bool, running: nat -> bool)

  datatype PassVerdict = NextChunk | NextFile | Stopped

  /** The service was seen to shut down: by a look at the flag, or inside an attempt. */
  ghost predicate ShutdownSeen(world: World) {
    || (exists j :: !world.running(j))
    || (exists i, j :: 0 <= i < |world.targets| && world.targets[i].attempts(j).ShutsDown?)
  }

  /** What resending a chunk to all targets does to the rows: the first refusal fails
      it, unanimous "already there" cleans the file up, and otherwise it succeeds. */
  ghost predicate Resent(
    rows: ChunkRows, rows': ChunkRows, n: int, world: World, maxRetries: nat, verdict: PassVerdict)
  {
    if exists i :: 0 <= i < |world.targets| && IsReply(world.targets[i], maxRetries, Refused) then
      && verdict.NextChunk? && OnlyRow(rows, rows', n)
      && (world.statusStored && n in rows ==> rows'[n].status == AgentDatabase.Failed)
    else if forall i :: 0 <= i < |world.targets| ==> IsReply(world.targets[i], maxRetries, AlreadyExists) then
      verdict.NextFile? && if world.statusStored then rows' == map[] else OnlyRow(rows, rows', n)
    else
      && verdict.NextChunk? && OnlyRow(rows, rows', n)
      && (world.statusStored && n in rows ==> rows'[n].status == AgentDatabase.Success)
  }

  lemma ResentMeans(rows: ChunkRows, rows': ChunkRows, n: int, world: World, maxRetries: nat, replies: seq<SendResult>,
                    verdict: PassVerdict)
    requires |replies| <= |world.targets|
    requires forall i :: 0 <= i < |replies| ==> IsReply(world.targets[i], maxRetries, replies[i])
    requires OnlyRow(rows, rows', n) || rows' == map[]
    ensures |replies| > 0 && replies[|replies| - 1].Refused? ==>
              (Resent(rows, rows', n, world, maxRetries, verdict)
               <==> verdict.NextChunk? && OnlyRow(rows, rows', n)
                    && (world.statusStored && n in rows ==> rows'[n].status == AgentDatabase.Failed))
    ensures |replies| == |world.targets| && Refused !in replies ==>
              if forall i :: 0 <= i < |replies| ==> replies[i].AlreadyExists? then
                Resent(rows, rows', n, world, maxRetries, verdict)
                <==> verdict.NextFile? && if world.statusStored then rows' == map[] else OnlyRow(rows, rows', n)
              else
                Resent(rows, rows', n, world, maxRetries, verdict)
                <==> verdict.NextChunk? && OnlyRow(rows, rows', n)
                     && (world.statusStored && n in rows ==> rows'[n].status == AgentDatabase.Success)
  {
    if |replies| > 0 && replies[|replies| - 1].Refused? {
      assert IsReply(world.targets[|replies| - 1], maxRetries, Refused);
    }
    if |replies| == |world.targets| && Refused !in replies {
      forall i, r | 0 <= i < |world.targets| && IsReply(world.targets[i], maxRetries, r) ensures r == replies[i] {
        OneReply(world.targets[i], maxRetries, r, replies[i]);
      }
      assert forall i :: 0 <= i < |replies| ==> replies[i] in replies;
    }
    hide OnlyRow, IsReply;
  }

  /** The loop over targets for one chunk: the first refusal fails the chunk; if all
      answered, the row becomes a success, or the whole file is cleaned up when all
      of them already had it. */
  method ResendChunk(
    db: Database, path: Path, number: int, retries: nat, world: World, ghost l: Ledger, cfg: Config)
    returns (verdict: PassVerdict, ghost events: seq<Event>, ghost l': Ledger)
    requires Mirrors(db, path, l) && |world.targets| == cfg.targets
    requires Resending(l, number, retries, 0, true)
    modifies db
    ensures Leads(l, cfg, events, l') && Mirrors(db, path, l')
    ensures verdict.NextChunk? ==> l'.current.None? && l'.listed == l.listed
    ensures verdict.NextFile? ==> l'.current.None? && l'.listed == map[]
    ensures if verdict.Stopped? then ShutdownSeen(world) && OnlyCounter(l.rows, l'.rows, number)
            else Resent(l.rows, l'.rows, number, world, cfg.maxRetries, verdict)
  {
    hide Run, Step, Leads, WithStatus, OnlyCounter, OnlyRow, Resent, IsReply;
    LeadsNowhere(l, cfg);
    RowsAsBefore(l.rows, number);
    ghost var replies: seq<SendResult> := [];
    events, l' := [], l;
    var chunkFailed, chunkAlreadyExistsEverywhere, retryAccumulator := false, true, retries;
    var i := 0;
    while i < |world.targets|
      invariant 0 <= i <= |world.targets| && !chunkFailed
      invariant Leads(l, cfg, events, l') && Mirrors(db, path, l') && l'.listed == l.listed
      invariant Resending(l', number, retryAccumulator, i, chunkAlreadyExistsEverywhere)
      invariant OnlyCounter(l.rows, l'.rows, number)
      invariant |replies| == i && Refused !in replies
      invariant forall k :: 0 <= k < i ==> IsReply(world.targets[k], cfg.maxRetries, replies[k])
      invariant chunkAlreadyExistsEverywhere <==> forall k :: 0 <= k < i ==> replies[k].AlreadyExists?
    {
      if !world.running(2 * i + 1) {
        verdict := Stopped;
        return;
      }
      ghost var before, more := l', events;
      var result, accumulated, stopped;
      result, accumulated, stopped, more, l' :=
        SendPendingChunkToTarget(db, path, world.targets[i], number, retryAccumulator,
          l', cfg, i, chunkAlreadyExistsEverywhere);
      LeadsOn(l, cfg, events, before, more, l');
      OneAfterAnother(l.rows, before.rows, l'.rows, number);
      events, retryAccumulator := events + more, accumulated;
      if stopped || !world.running(2 * i + 2) {
        verdict := Stopped;
        return;
      }
      replies := replies + [result];
      if result.Refused? {
        chunkFailed := true;
        break;
      }
      if !result.AlreadyExists? {
        chunkAlreadyExistsEverywhere := false;
      }
      i := i + 1;
    }
    EndSteps(l', cfg, world.statusStored);
    StatusWrite(l.rows, l'.rows, number, AgentDatabase.Failed);
    StatusWrite(l.rows, l'.rows, number, AgentDatabase.Success);
    if chunkFailed {
      LeadsOneMore(l, cfg, events, l', TargetRefuses(world.statusStored));
      events, l' := events + [TargetRefuses(world.statusStored)], RefusedAt(l', world.statusStored);
      db.UpdateChunkStatus(path, number, AgentDatabase.Failed, world.statusStored);
      verdict := NextChunk;
      ResentMeans(l.rows, l'.rows, number, world, cfg.maxRetries, replies, verdict);
      return;
    }
    LeadsOneMore(l, cfg, events, l', Conclude(world.statusStored));
    events, l' := events + [Conclude(world.statusStored)], Concluded(l', world.statusStored);
    if chunkAlreadyExistsEverywhere {
      db.AddProcessedFileAndCleanupChunks(path, world.statusStored);
      verdict := NextFile;
      ResentMeans(l.rows, l'.rows, number, world, cfg.maxRetries, replies, verdict);
      return;
    }
    db.UpdateChunkStatus(path, number, AgentDatabase.Success, world.statusStored);
    verdict := NextChunk;
    ResentMeans(l.rows, l'.rows, number, world, cfg.maxRetries, replies, verdict);
  }

  /** Retry and status of a chunk that cannot be resent: the counter is raised from the
      listed value, then the status is written, unless the first write throws. */
  method MarkChunkAsFailed(
    db: Database, path: Path, number: int, row: ChunkRow, counted: bool, marked: bool, ghost l: Ledger)
    requires db.Rows(path) == l.rows
    requires number in l.listed && l.listed[number] == row
    modifies db`chunks
    ensures db.Rows(path) == ChargedOnce(l, number, counted, marked).rows
  {
    hide WithRetries, WithStatus;
    db.UpdateChunkRetries(path, number, row.retries + 1, counted);
    if counted {
      db.UpdateChunkStatus(path, number, AgentDatabase.Failed, marked);
    }
  }

  /** One failure is charged to the row from its listed counter, as far as the writes
      take effect. */
  ghost predicate Charge(rows: ChunkRows, rows': ChunkRows, n: int, listed: ChunkRow, world: World) {
    && OnlyRow(rows, rows', n)
    && (n in rows ==>
          && rows'[n].retries == (if world.counted then listed.retries + 1 else rows[n].retries)
          && rows'[n].status == if world.counted && world.marked then AgentDatabase.Failed else rows[n].status)
  }

  /** Charging a listed chunk one failure is the ledger's step. */
  method ChargeListed(
    db: Database, path: Path, n: int, row: ChunkRow, world: World, ghost l: Ledger, cfg: Config)
    returns (ghost events: seq<Event>, ghost l': Ledger)
    requires Mirrors(db, path, l) && n in l.listed && l.listed[n] == row && l.current.None?
    modifies db`chunks
    ensures Leads(l, cfg, events, l') && Mirrors(db, path, l')
    ensures l'.current.None? && l'.listed == l.listed - {n}
    ensures events == [ChargeOnce(n, world.counted, world.marked)]
    ensures Charge(l.rows, l'.rows, n, row, world)
  {
    PassSteps(l, cfg, n, world.counted, world.marked);
    LeadsNowhere(l, cfg);
    LeadsOneMore(l, cfg, [], l, ChargeOnce(n, world.counted, world.marked));
    events, l' := [] + [ChargeOnce(n, world.counted, world.marked)], ChargedOnce(l, n, world.counted, world.marked);
    hide Run, Step, WithRetries, WithStatus;
    MarkChunkAsFailed(db, path, n, row, world.counted, world.marked, l);
  }

  /** The chunk's range can be worked out, sought and read. */
  predicate Sendable(content: Bytes, n: int, row: ChunkRow, world: World) {
    AgentRetries.Rebuild(content, n, row).Rebuilt? && world.seekable && world.readable
  }

  /** One listed chunk of an open file: sent again, or charged one failure when its
      metadata is unusable or its range cannot be sought or read. After a failed seek
      the rest of the file waits for the next pass. */
  method ResendListed(
    db: Database, path: Path, n: int, row: ChunkRow, content: Bytes, world: World, ghost l: Ledger, cfg: Config)
    returns (verdict: PassVerdict, ghost events: seq<Event>, ghost l': Ledger)
    requires Mirrors(db, path, l) && |world.targets| == cfg.targets
    requires n in l.listed && l.listed[n] == row && l.current.None?
    modifies db
    ensures Leads(l, cfg, events, l') && Mirrors(db, path, l')
    ensures verdict.NextChunk? ==> l'.current.None? && l'.listed == l.listed - {n}
    ensures verdict.NextFile? ==> l'.current.None? && l'.listed == map[]
    ensures if verdict.Stopped? then ShutdownSeen(world)
            else if Sendable(content, n, row, world) then Resent(l.rows, l'.rows, n, world, cfg.maxRetries, verdict)
            else Charge(l.rows, l'.rows, n, row, world)
                 && (verdict.NextFile? <==> AgentRetries.Rebuild(content, n, row).Rebuilt? && !world.seekable)
    ensures if !world.running(0) then verdict.Stopped? && events == []
            else events != [] && events[0] == if Sendable(content, n, row, world) then Resume(n)
                                              else ChargeOnce(n, world.counted, world.marked)
  {
    hide Run, Step, Leads, ChargedOnce, AgentRetries.Rebuild, Resent, Charge;
    LeadsNowhere(l, cfg);
    events, l' := [], l;
    if !world.running(0) {
      verdict := Stopped;
      return;
    }
    if !Sendable(content, n, row, world) {
      events, l' := ChargeListed(db, path, n, row, world, l, cfg);
      verdict := NextChunk;
      if AgentRetries.Rebuild(content, n, row).Rebuilt? && !world.seekable {
        AbandonStep(l', cfg);
        LeadsOneMore(l, cfg, events, l', Abandon);
        events, l' := events + [Abandon], Step(l', cfg, Abandon);
        verdict := NextFile;
      }
      return;
    }
    PassSteps(l, cfg, n, false, false);
    LeadsOneMore(l, cfg, [], l, Resume(n));
    ghost var begun := Resumed(l, n);
    verdict, events, l' := ResendChunk(db, path, n, row.retries, world, begun, cfg);
    LeadsOn(l, cfg, [] + [Resume(n)], begun, events, l');
    events := [] + [Resume(n)] + events;
  }

  /** The chunk can be sent and is answered by all targets, not all of them with "already
      there", while the service runs, and its row can be updated. */
  ghost predicate AllAnswer(content: Option<Bytes>, n: int, row: ChunkRow, world: World, maxRetries: nat) {
    && content.Some? && Sendable(content.value, n, row, world) && !ShutdownSeen(world) && world.statusStored
    && (forall i :: 0 <= i < |world.targets| ==> !IsReply(world.targets[i], maxRetries, Refused))
    && (exists i :: 0 <= i < |world.targets| && !IsReply(world.targets[i], maxRetries, AlreadyExists))
  }

  ghost predicate ListingAnswered(content: Option<Bytes>, listing: ChunkRows, worlds: int -> World, maxRetries: nat) {
    forall n :: n in listing ==> AllAnswer(content, n, listing[n], worlds(n), maxRetries)
  }

  lemma EachAnswers(content: Option<Bytes>, listing: ChunkRows, worlds: int -> World, maxRetries: nat, n: int)
    requires ListingAnswered(content, listing, worlds, maxRetries) && n in listing
    ensures AllAnswer(content, n, listing[n], worlds(n), maxRetries)
  {
  }

  /** The rows in `healed` have become successes, and the others are as they were. */
  ghost predicate Healed(rows: ChunkRows, rows': ChunkRows, healed: set<int>) {
    && rows'.Keys == rows.Keys
    && forall n :: n in rows ==>
         if n in healed then rows'[n].status.Success? && Core(rows'[n]) == Core(rows[n]) else rows'[n] == rows[n]
  }

  lemma NothingHealed(rows: ChunkRows)
    ensures Healed(rows, rows, {})
  {
  }

  lemma HealOne(start: ChunkRows, rows: ChunkRows, rows': ChunkRows, healed: set<int>, n: int)
    requires Healed(start, rows, healed) && OnlyRow(rows, rows', n) && (n in rows ==> rows'[n].status.Success?)
    ensures Healed(start, rows', healed + {n})
  {
  }

  lemma ResentHeals(rows: ChunkRows, rows': ChunkRows, n: int, world: World, maxRetries: nat, verdict: PassVerdict)
    requires Resent(rows, rows', n, world, maxRetries, verdict) && world.statusStored
    requires forall i :: 0 <= i < |world.targets| ==> !IsReply(world.targets[i], maxRetries, Refused)
    requires exists i :: 0 <= i < |world.targets| && !IsReply(world.targets[i], maxRetries, AlreadyExists)
    ensures verdict.NextChunk? && OnlyRow(rows, rows', n) && (n in rows ==> rows'[n].status.Success?)
  {
    hide OnlyRow, IsReply;
  }

  /** One listed chunk: charged when the file cannot be opened, else resent. */
  method PassRound(
    db: Database, path: Path, n: int, row: ChunkRow, content: Option<Bytes>, world: World, ghost l: Ledger, cfg: Config)
    returns (verdict: PassVerdict, ghost events: seq<Event>, ghost l': Ledger)
    requires Mirrors(db, path, l) && |world.targets| == cfg.targets
    requires n in l.listed && l.listed[n] == row && l.current.None?
    modifies db
    ensures Leads(l, cfg, events, l') && Mirrors(db, path, l')
    ensures verdict.NextChunk? ==> l'.current.None? && l'.listed == l.listed - {n}
    ensures verdict.NextFile? ==> l'.current.None? && l'.listed == map[]
    ensures verdict.Stopped? ==> ShutdownSeen(world)
    ensures content.None? ==> verdict.NextChunk? && Charge(l.rows, l'.rows, n, row, world)
    ensures AllAnswer(content, n, row, world, cfg.maxRetries) ==>
              verdict.NextChunk? && OnlyRow(l.rows, l'.rows, n) && (n in l.rows ==> l'.rows[n].status.Success?)
  {
    hide Run, Step, Leads, Charge, OnlyRow, IsReply, Resent, Sendable;
    if content.None? {
      events, l' := ChargeListed(db, path, n, row, world, l, cfg);
      verdict := NextChunk;
    } else {
      verdict, events, l' := ResendListed(db, path, n, row, content.value, world, l, cfg);
      if AllAnswer(content, n, row, world, cfg.maxRetries) {
        ResentHeals(l.rows, l'.rows, n, world, cfg.maxRetries, verdict);
      }
    }
  }

  /** The resend pass over one file. `content` is None when the file cannot be opened,
      measured or rewound; its status is then set to 'failed', if that write takes
      effect, and all its listed chunks are charged. The table ends as the ledger does
      after the pass's events. It stops only when the service shuts down; and when all
      listed chunks are answered, all of them are successes afterwards and nothing else
      has changed. */
  method SendPendingFailedChunks(
    db: Database, path: Path, content: Option<Bytes>, worlds: int -> World, failedStored: bool,
    ghost l: Ledger, cfg: Config)
    returns (stopped: bool, ghost events: seq<Event>, ghost l': Ledger)
    requires Mirrors(db, path, l) && Idle(l)
    requires forall n :: |worlds(n).targets| == cfg.targets
    modifies db
    ensures Leads(l, cfg, events, l') && Mirrors(db, path, l')
    ensures if cfg.targets == 0 then stopped && events == [] else events != [] && events[0] == BeginPass
    ensures cfg.targets > 0 && content.None? && PendingRows(l.rows, cfg.abandonLimit) != map[] ==>
              |events| > 1 && events[1] == MarkFailed(failedStored)
    ensures !stopped ==> l'.listed == map[] && l'.current.None?
    ensures var listing := PendingRows(l.rows, cfg.abandonLimit);
            && (stopped && cfg.targets > 0 ==> exists n :: n in listing && ShutdownSeen(worlds(n)))
            && (cfg.targets > 0 && ListingAnswered(content, listing, worlds, cfg.maxRetries) ==>
                  !stopped && Healed(l.rows, l'.rows, listing.Keys))
  {
    LeadsNowhere(l, cfg);
    if cfg.targets == 0 {
      return true, [], l;
    }
    var pending := PendingRows(db.Rows(path), cfg.abandonLimit);
    ghost var first, begun, more;
    first, begun := OpenPass(db, path, pending, content.None?, failedStored, l, cfg);
    hide Run, Step, Leads, PendingRows, Healed, ShutdownSeen, ListingAnswered;
    stopped, more, l' := ResendAll(db, path, pending, content, worlds, begun, cfg);
    LeadsOn(l, cfg, first, begun, more, l');
    events := first + more;
  }

  ghost predicate Within(pending: ChunkRows, listing: ChunkRows) {
    forall k :: k in pending ==> k in listing && pending[k] == listing[k]
  }

  lemma OneLess(listing: ChunkRows, pending: ChunkRows, n: int)
    requires Within(pending, listing) && n in pending
    ensures var rest := pending - {n};
            && Within(rest, listing) && |rest.Keys| < |pending.Keys| && n in listing && pending[n] == listing[n]
            && listing.Keys - pending.Keys + {n} == listing.Keys - rest.Keys
  {
    var rest := pending - {n};
    assert rest.Keys == pending.Keys - {n};
  }

  /** The loop over the listed chunks. */
  method ResendAll(
    db: Database, path: Path, listing: ChunkRows, content: Option<Bytes>, worlds: int -> World,
    ghost l: Ledger, cfg: Config)
    returns (stopped: bool, ghost events: seq<Event>, ghost l': Ledger)
    requires Mirrors(db, path, l) && l.listed == listing && l.current.None?
    requires forall n :: |worlds(n).targets| == cfg.targets
    modifies db
    ensures Leads(l, cfg, events, l') && Mirrors(db, path, l')
    ensures !stopped ==> l'.listed == map[] && l'.current.None?
    ensures stopped ==> exists n :: n in listing && ShutdownSeen(worlds(n))
    ensures ListingAnswered(content, listing, worlds, cfg.maxRetries) ==>
              !stopped && Healed(l.rows, l'.rows, listing.Keys)
  {
    LeadsNowhere(l, cfg);
    NothingHealed(l.rows);
    ghost var answered := ListingAnswered(content, listing, worlds, cfg.maxRetries);
    var pending := listing;
    events, l', stopped := [], l, false;
    assert listing.Keys - pending.Keys == {} && Within(pending, listing);
    hide Run, Step, Leads, Healed, Charge, ShutdownSeen, AllAnswer, OnlyRow, ListingAnswered, Mirrors, Within;
    while pending.Keys != {}
      invariant Leads(l, cfg, events, l') && Mirrors(db, path, l') && !stopped
      invariant l'.listed == pending && l'.current.None?
      invariant Within(pending, listing)
      invariant answered ==> Healed(l.rows, l'.rows, listing.Keys - pending.Keys)
      decreases |pending.Keys|
    {
      SomeElement(pending.Keys);
      var n :| n in pending.Keys;
      var rest := pending - {n};
      OneLess(listing, pending, n);
      ghost var before, more := l', events;
      if answered {
        EachAnswers(content, listing, worlds, cfg.maxRetries, n);
      }
      var verdict;
      verdict, more, l' := PassRound(db, path, n, pending[n], content, worlds(n), l', cfg);
      LeadsOn(l, cfg, events, before, more, l');
      events := events + more;
      if !verdict.NextChunk? {
        stopped := verdict.Stopped?;
        return;
      }
      if answered {
        HealOne(l.rows, before.rows, l'.rows, listing.Keys - pending.Keys, n);
      }
      pending := rest;
    }
    assert listing.Keys - pending.Keys == listing.Keys;
  }

  /** The pass is listed, and a file that cannot be opened marked as failed. */
  method OpenPass(
    db: Database, path: Path, pending: ChunkRows, unopened: bool, failedStored: bool, ghost l: Ledger, cfg: Config)
    returns (ghost events: seq<Event>, ghost l': Ledger)
    requires Mirrors(db, path, l) && Idle(l) && cfg.targets > 0 && pending == PendingRows(l.rows, cfg.abandonLimit)
    modifies db`processed
    ensures Leads(l, cfg, events, l') && Mirrors(db, path, l')
    ensures l'.rows == l.rows && l'.listed == pending && l'.current.None?
    ensures events == [BeginPass] + if unopened && pending != map[] then [MarkFailed(failedStored)] else []
  {
    LeadsNowhere(l, cfg);
    BeginPassStep(l, cfg);
    LeadsOneMore(l, cfg, [], l, BeginPass);
    events, l' := [] + [BeginPass], Step(l, cfg, BeginPass);
    if pending != map[] && unopened {
      LeadsOneMore(l, cfg, events, l', MarkFailed(failedStored));
      events, l' := events + [MarkFailed(failedStored)], Step(l', cfg, MarkFailed(failedStored));
      db.MarkFileAsUnprocessed(path, failedStored);
    }
  }
}
