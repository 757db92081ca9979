/** Per-client storage stays within budget in every reachable state; and why one
    chunk plan per transfer id is needed. */
module ServerBudget {
  import opened Basics
  import opened TransferPlans
  import opened ServerFile
  import opened ServerSafety
  import opened ServerMachine
  import opened ServerRuns

  /** A delivery never makes a file larger, except that a file it creates may reach
      the declared size - which is what admission was asked for. */
  lemma ProgressSize(plans: Plans, f: FileState, policy: Policy, p: Packet, replace: bool, reset: bool, reach: Reach)
    requires ValidPlans(plans) && Sound(plans, f) && Genuine(plans, p)
    requires PreCheck(f, policy, p) == Proceed(replace, reset)
    requires Undamaged(plans, p, true, reach)
    ensures var after := Progress(f, p, replace, reset, reach);
            || Size(after) <= Size(f)
            || (reach.Rank() > FileRemoved.Rank()
                && Progress(f, p, replace, reset, FileRemoved).bytes.None? && Size(after) <= p.TargetSize())
  {
    ProceedMeansReceptive(plans, f, policy, p, replace, reset);
    PiecePlacement(plans[p.transferId], p.number);
  }

  lemma DeliverWithinBudget(plans: Plans, s: Server, limits: Limits, d: Delivery)
    requires ValidPlans(plans) && Invariant(plans, s) && Allowed(plans, s, Deliver(d)) && WithinBudget(s, limits)
    ensures WithinBudget(Receive(s, limits, d).0, limits)
  {
    hide Sound, Accepted;
    DeliverIsLocal(plans, s, limits, d);
    var k := EffectiveKey(s, d);
    AtSound(plans, s, k);
    match Decided(At(s, k), d)
    case Answered(_) =>
    case Proceed(rep, res) =>
      var reach := AdmittedReach(s, limits, k, d, rep, res);
      var f := At(s, k);
      var after := Accepted(f, d.packet, rep, res, d.intact, reach, HasRoom(s, limits)).file;
      AcceptedSize(plans, f, d.policy, d.packet, rep, res, d.intact, reach, HasRoom(s, limits));
      var files := s.files[k := after];
      forall c ensures Usage(files, c) <= limits.maxClientStorage {
        BudgetAt(s, limits, k, d, rep, res, after, c);
      }
  }

  ghost predicate Bounded(f: FileState, p: Packet, replace: bool, reset: bool, reach: Reach, after: FileState) {
    || Size(after) <= Size(f)
    || (reach.Rank() > FileRemoved.Rank()
        && Progress(f, p, replace, reset, FileRemoved).bytes.None? && Size(after) <= p.TargetSize())
  }

  lemma AcceptedSize(plans: Plans, f: FileState, policy: Policy, p: Packet, replace: bool, reset: bool,
                     intact: bool, reach: Reach, room: bool)
    requires ValidPlans(plans) && Sound(plans, f) && Genuine(plans, p)
    requires PreCheck(f, policy, p) == Proceed(replace, reset)
    requires Undamaged(plans, p, intact, reach)
    ensures Bounded(f, p, replace, reset, reach, Accepted(f, p, replace, reset, intact, reach, room).file)
  {
    hide Sound;
    if intact {
      ProgressSize(plans, f, policy, p, replace, reset, reach);
    }
  }

  lemma BudgetAt(s: Server, limits: Limits, k: Key, d: Delivery, replace: bool, reset: bool, after: FileState, c: Bytes)
    requires WithinBudget(s, limits)
    requires Bounded(At(s, k), d.packet, replace, reset, AdmittedReach(s, limits, k, d, replace, reset), after)
    ensures Usage(s.files[k := after], c) <= limits.maxClientStorage
  {
    hide Progress;
    UsageUpdate(s.files, c, k, after);
    assert Usage(s.files, c) <= limits.maxClientStorage;
    if Size(after) > Size(At(s, k)) && k.client == c {
      var removed := Progress(At(s, k), d.packet, replace, reset, FileRemoved);
      UsageUpdate(s.files, c, k, removed);
    }
  }

  lemma {:induction false} RecoverKeepsUsage(s: Server, limits: Limits, order: seq<Key>, c: Bytes)
    ensures Usage(Recover(s, limits, order).files, c) == Usage(s.files, c)
    decreases order
  {
    if order != [] {
      var k := order[0];
      UsageUpdate(s.files, c, k, Reloaded(At(s, k)));
      RecoverKeepsUsage(RecoverOne(s, limits, k), limits, order[1..], c);
    }
  }

  lemma {:induction false} CrashKeepsUsage(files: map<Key, FileState>, c: Bytes)
    ensures Usage(map k | k in files :: Crashed(files[k]), c) == Usage(files, c)
    decreases |files|
  {
    var crashed := map k | k in files :: Crashed(files[k]);
    if n :| n in files {
      UsageWithout(files, c, n);
      UsageWithout(crashed, c, n);
      CrashKeepsUsage(files - {n}, c);
      assert crashed - {n} == map k | k in files - {n} :: Crashed((files - {n})[k]);
    } else {
      assert files == map[] && crashed == map[];
    }
  }

  /** Storage budget: from a state within budget, every event leaves every client's
      files within budget. */
  lemma StepWithinBudget(plans: Plans, s: Server, limits: Limits, e: Event)
    requires ValidPlans(plans) && Invariant(plans, s) && Allowed(plans, s, e) && WithinBudget(s, limits)
    ensures WithinBudget(Step(s, limits, e), limits)
  {
    hide Receive, Sound;
    match e
    case Deliver(d) => DeliverWithinBudget(plans, s, limits, d);
    case Finalize(i, finish) =>
      forall c ensures Usage(Step(s, limits, e).files, c) <= limits.maxClientStorage {
        UsageUpdate(s.files, c, s.tasks[i], Finalized(At(s, s.tasks[i]), finish));
      }
    case BlindRestart =>
      forall c ensures Usage(Step(s, limits, e).files, c) <= limits.maxClientStorage {
        CrashKeepsUsage(s.files, c);
      }
    case Restart(order) =>
      forall c ensures Usage(Step(s, limits, e).files, c) <= limits.maxClientStorage {
        CrashKeepsUsage(s.files, c);
        RecoverKeepsUsage(Forgotten(s), limits, order, c);
      }
    case _ =>
  }

  lemma {:induction false} RunWithinBudget(plans: Plans, s: Server, limits: Limits, events: seq<Event>)
    requires ValidPlans(plans) && Initial(s) && AllowedRun(plans, s, limits, events) && WithinBudget(s, limits)
    ensures WithinBudget(Run(s, limits, events), limits)
    decreases |events|
  {
    if events != [] {
      var before := events[..|events| - 1];
      RunWithinBudget(plans, s, limits, before);
      RunKeepsInvariant(plans, s, limits, before);
      StepWithinBudget(plans, Run(s, limits, before), limits, events[|events| - 1]);
    }
  }

  // ---------- One plan per transfer id ----------

  const CONTENT: Bytes := [7, 8, 9]
  const EARLY := Plan(CONTENT, [0, 1, 3], false)
  const LATE := Plan(CONTENT, [0, 2, 3], false)

  /** The file after chunk 0 of EARLY and then chunk 1 of LATE, all under one id. */
  function Half(t: TransferId): FileState {
    FileState(map[0 := Row(2, t, Success)], 0, None, Some([7, 0, 0]), false, Some(1))
  }

  function Mixed(t: TransferId): FileState {
    FileState(map[0 := Row(2, t, Success), 1 := Row(2, t, Success)], 0, None, Some([7, 0, 9]), true, None)
  }

  function ChunkZero(t: TransferId): Packet { Packet(0, 0, 2, 3, t, [], [7]) }
  function ChunkOne(t: TransferId): Packet { Packet(1, 2, 2, 3, t, [], [9]) }

  lemma HalfArrives(t: TransferId)
    ensures Accepted(Absent, ChunkZero(t), false, false, true, Counted, true) == Receipt(Half(t), Stored, false)
  {
    var sized := Sized(Absent, 3);
    assert Overlay(Zeros(3), 0, [7]) == [7, 0, 0];
    var written := WrittenAt(sized, 0, [7]);
    var marked := Progress(Absent, ChunkZero(t), false, false, Counted);
    assert marked == Marked(Inserted(written, ChunkZero(t)), 0);
    assert marked.rows == map[0 := Row(2, t, Success)];
    assert Successes(marked.rows) == {0};
    assert marked == Half(t).(remaining := None);
  }

  lemma MixedArrives(t: TransferId)
    requires t != []
    ensures PreCheck(Half(t), Overwrite, ChunkOne(t)) == Proceed(false, false)
    ensures Accepted(Half(t), ChunkOne(t), false, false, true, Counted, true)
         == Receipt(Mixed(t), JustCompleted, true)
  {
    assert Overlay([7, 0, 0], 2, [9]) == [7, 0, 9];
    var marked := Progress(Half(t), ChunkOne(t), false, false, Counted);
    var written := WrittenAt(Half(t), 2, [9]);
    assert written == Half(t).(bytes := Some([7, 0, 9]));
    assert marked == Marked(Inserted(written, ChunkOne(t)), 1);
    assert marked.rows == Mixed(t).rows;
    assert 0 in written.rows;
    assert marked == Mixed(t).(finalizing := false, remaining := Some(1));
    assert Successes(Mixed(t).rows) == {0, 1};
  }

  lemma MixedIsRecorded(t: TransferId)
    ensures Finalized(Mixed(t), Committed).record == Some(t) && Finalized(Mixed(t), Committed).bytes == Some([7, 0, 9])
  {
    var rows := Mixed(t).rows;
    assert SuccessRows(rows) == rows && rows[0].total == 2;
    assert MaxTotal(rows) == 2;
    assert Below(2) == {0, 1} == Successes(rows);
  }

  /** Two plans of the same content under one id lose bytes: stored chunks are told
      apart by number only, so chunk 0 of one plan and chunk 1 of the other complete
      the count. Byte 1 was never sent, and the file is recorded without it. */
  lemma MixedPlansLoseBytes(t: TransferId)
    requires t != []
    ensures EARLY.Valid() && LATE.Valid() && EARLY.content == LATE.content
    ensures ChunkZero(t).data == EARLY.Piece(0) && ChunkOne(t).data == LATE.Piece(1)
    ensures var one := Accepted(Absent, ChunkZero(t), false, false, true, Counted, true);
            var two := Accepted(one.file, ChunkOne(t), false, false, true, Counted, true);
            && one.answer == Stored && two.answer == JustCompleted
            && Finalized(two.file, Committed).record == Some(t)
            && Finalized(two.file, Committed).bytes != Some(EARLY.content)
  {
    assert EARLY.Valid() && LATE.Valid();
    assert EARLY.Piece(0) == [7] && LATE.Piece(1) == [9];
    hide Accepted, Finalized;
    HalfArrives(t);
    MixedArrives(t);
    MixedIsRecorded(t);
    assert CONTENT[1] == 8;
  }
}
