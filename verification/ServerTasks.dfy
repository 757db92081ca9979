/** When a complete file has the task that finalizes it: the exact events that leave it
    without one, over one step and over whole runs. */
module ServerTasks {
  import opened Basics
  import opened TransferPlans
  import opened ServerFile
  import opened ServerSafety
  import opened ServerMachine
  import opened ServerRuns
  import opened ServerDurability

  /** Every chunk is stored and no queued task will finalize the file. */
  ghost predicate Unserved(plans: Plans, s: Server, k: Key)
    requires ValidPlans(plans)
  {
    Due(plans, At(s, k)) && k !in s.tasks
  }

  // ---------- What one delivery does to one file ----------

  predicate Stores(rows: Rows, n: int) { n in rows && rows[n].status.Success? }

  /** The rows a delivery finds once a superseded transfer's are gone. */
  function Before(f: FileState, reset: bool): Rows { if reset then map[] else f.rows }

  lemma CompleteStores(plan: Plan, rows: Rows)
    requires plan.Valid()
    ensures Complete(plan, rows) <==> forall n :: 0 <= n < plan.Count() ==> Stores(rows, n)
  {
    hide Plan.Valid;
    if Complete(plan, rows) {
      forall n | 0 <= n < plan.Count() ensures Stores(rows, n) {
        assert n in rows;
      }
    } else {
      var n :| 0 <= n < plan.Count() && !(n in rows && rows[n].status.Success?);
      assert !Stores(rows, n);
    }
  }

  /** The chunk's row becomes a success, and all other chunks already were. */
  ghost predicate Fills(plans: Plans, f: FileState, p: Packet, reset: bool, intact: bool, reach: Reach)
    requires ValidPlans(plans) && Genuine(plans, p)
  {
    && intact && reach.Marks()
    && !Stores(Before(f, reset), p.number)
    && forall n :: 0 <= n < plans[p.transferId].Count() && n != p.number ==> Stores(Before(f, reset), n)
  }

  /** A delivery past the pre-check empties a file that held another transfer. */
  predicate Empties(reset: bool, intact: bool, reach: Reach) { reset && intact && reach.Rank() > 0 }

  /** Marking the row last leaves exactly the other rows as they were. */
  lemma MarkedRows(plans: Plans, f: FileState, policy: Policy, p: Packet, replace: bool, reset: bool)
    requires ValidPlans(plans) && Sound(plans, f) && Genuine(plans, p)
    requires PreCheck(f, policy, p) == Proceed(replace, reset)
    ensures var done := Progress(f, p, replace, reset, Counted);
            && done == Progress(f, p, replace, reset, RowMarked)
            && forall n :: n != p.number ==> (Stores(done.rows, n) <==> Stores(Before(f, reset), n))
  {
    ProceedMeansReceptive(plans, f, policy, p, replace, reset);
    hide InProgress;
  }

  lemma MarkedIsDue(plans: Plans, f: FileState, policy: Policy, p: Packet, replace: bool, reset: bool)
    requires ValidPlans(plans) && Sound(plans, f) && Genuine(plans, p)
    requires PreCheck(f, policy, p) == Proceed(replace, reset) && Undamaged(plans, p, true, Counted)
    requires reset || !Stores(f.rows, p.number)
    ensures var done := Progress(f, p, replace, reset, Counted);
            && (Due(plans, done) <==> Fills(plans, f, p, reset, true, Counted))
            && !done.finalizing
  {
    ProgressSound(plans, f, policy, p, replace, reset, Counted);
    MarkedRows(plans, f, policy, p, replace, reset);
    var done := Progress(f, p, replace, reset, Counted);
    hide Progress, Sound, InProgress;
    assert Stores(done.rows, p.number) && ActiveTransfer(done) == p.transferId;
    CompleteStores(plans[p.transferId], done.rows);
  }

  /** The last chunk raises the flag if the pool takes the task. */
  lemma CountedIsDue(plans: Plans, f: FileState, policy: Policy, p: Packet, replace: bool, reset: bool, room: bool)
    requires ValidPlans(plans) && Sound(plans, f) && Genuine(plans, p)
    requires PreCheck(f, policy, p) == Proceed(replace, reset) && Undamaged(plans, p, true, Counted)
    requires reset || !Stores(f.rows, p.number)
    ensures var r := Accepted(f, p, replace, reset, true, Counted, room);
            && (Due(plans, r.file) <==> Fills(plans, f, p, reset, true, Counted))
            && (Due(plans, r.file) ==> r.file.finalizing == room == r.enqueue)
  {
    MarkedIsDue(plans, f, policy, p, replace, reset);
    CompletedIffAllStored(plans, f, policy, p, replace, reset, room);
    var r := Accepted(f, p, replace, reset, true, Counted, room);
    var done := Progress(f, p, replace, reset, Counted);
    assert r.file.rows == done.rows && r.file.first == done.first;
  }

  /** A delivery that does not mark its row leaves no file complete that it changed. */
  lemma UnmarkedIsDue(plans: Plans, f: FileState, policy: Policy, p: Packet, replace: bool, reset: bool, reach: Reach)
    requires ValidPlans(plans) && Sound(plans, f) && Genuine(plans, p)
    requires PreCheck(f, policy, p) == Proceed(replace, reset)
    requires reset || !Stores(f.rows, p.number)
    requires reach.Rank() > 0 && !reach.Marks()
    ensures !Due(plans, Progress(f, p, replace, reset, reach))
    ensures !reset ==> !Due(plans, f)
  {
    ProceedMeansReceptive(plans, f, policy, p, replace, reset);
    var g := Progress(f, p, replace, reset, reach);
    assert !Stores(g.rows, p.number);
    if !reset && f.rows != map[] {
      assert ActiveTransfer(f) == p.transferId;
    }
    if g.rows != map[] {
      assert ActiveTransfer(g) == p.transferId;
    }
    hide Progress, Sound, InProgress;
  }

  /** One delivery past the pre-check: the file ends complete without flag exactly when
      this chunk fills it and either the accounting fails or the pool refuses the
      task, or when it was so before and is not emptied. */
  lemma AcceptedUnserved(plans: Plans, f: FileState, policy: Policy, p: Packet, replace: bool, reset: bool,
                         intact: bool, reach: Reach, room: bool)
    requires ValidPlans(plans) && Sound(plans, f) && Genuine(plans, p) && Undamaged(plans, p, intact, reach)
    requires PreCheck(f, policy, p) == Proceed(replace, reset) && !f.finalizing
    ensures var r := Accepted(f, p, replace, reset, intact, reach, room);
            && (Due(plans, r.file) && !r.enqueue
                <==> (Fills(plans, f, p, reset, intact, reach) && (reach.RowMarked? || !room))
                     || (Due(plans, f) && !Empties(reset, intact, reach)))
            && (Due(plans, r.file) ==> r.file.finalizing == r.enqueue)
  {
    ProceedMeansReceptive(plans, f, policy, p, replace, reset);
    if intact && reach.Rank() > 0 && (reset || !Stores(f.rows, p.number)) {
      if reach.Counted? {
        CountedIsDue(plans, f, policy, p, replace, reset, room);
        UnmarkedIsDue(plans, f, policy, p, replace, reset, RowsDropped);
      } else if reach.RowMarked? {
        MarkedIsDue(plans, f, policy, p, replace, reset);
        MarkedRows(plans, f, policy, p, replace, reset);
        UnmarkedIsDue(plans, f, policy, p, replace, reset, RowsDropped);
      } else {
        UnmarkedIsDue(plans, f, policy, p, replace, reset, reach);
      }
      hide Progress, Accounted, Sound, InProgress, Due, Genuine;
      assert !reset ==> !Due(plans, f);
      assert Empties(reset, intact, reach) == reset;
    } else {
      hide Progress, Accounted, Sound, InProgress, Genuine;
      assert Accepted(f, p, replace, reset, intact, reach, room).file == f;
    }
  }

  // ---------- One step ----------

  /** Delivery d gets past the pre-check for file k. */
  predicate Proceeds(s: Server, d: Delivery, k: Key) {
    EffectiveKey(s, d) == k && Decided(At(s, k), d).Proceed?
  }

  /** The event leaves k complete without a task: the last chunk arrives while the pool
      has no room or the accounting cannot be read, the finalization is not
      committed, or a start-up finds no room for the task or cannot list the file. */
  ghost predicate Abandons(plans: Plans, s: Server, limits: Limits, e: Event, k: Key)
    requires ValidPlans(plans)
  {
    match e
    case Deliver(d) =>
      Genuine(plans, d.packet) && Proceeds(s, d, k) &&
      (var v := Decided(At(s, k), d);
       var reach := AdmittedReach(s, limits, k, d, v.replace, v.reset);
       Fills(plans, At(s, k), d.packet, v.reset, d.intact, reach) && (reach.RowMarked? || !HasRoom(s, limits)))
    case Finalize(i, finish) => i < |s.tasks| && s.tasks[i] == k && !finish.Committed?
    case Restart(order) =>
      var due := DueKeys(plans, Forgotten(s), order);
      Due(plans, At(s, k)) && k !in due[..Min(|due|, limits.queueCapacity)]
    case BlindRestart => Due(plans, At(s, k))
    case _ => false
  }

  /** The event gives k its task back, or makes it incomplete. */
  ghost predicate Relieves(s: Server, limits: Limits, e: Event, k: Key) {
    match e
    case Deliver(d) =>
      Proceeds(s, d, k) &&
      (var v := Decided(At(s, k), d);
       Empties(v.reset, d.intact, AdmittedReach(s, limits, k, d, v.replace, v.reset)))
    case _ => e.StartsUp()
  }

  lemma DeliverUnserved(plans: Plans, s: Server, limits: Limits, d: Delivery, k: Key)
    requires ValidPlans(plans) && Invariant(plans, s) && Allowed(plans, s, Deliver(d))
    ensures Unserved(plans, Step(s, limits, Deliver(d)), k)
       <==> Abandons(plans, s, limits, Deliver(d), k)
            || (Unserved(plans, s, k) && !Relieves(s, limits, Deliver(d), k))
    ensures Abandons(plans, s, limits, Deliver(d), k) ==> !At(Step(s, limits, Deliver(d)), k).finalizing
  {
    DeliverIsLocal(plans, s, limits, d);
    AtSound(plans, s, k);
    if Proceeds(s, d, k) {
      var v := Decided(At(s, k), d);
      ProceedMeansReceptive(plans, At(s, k), d.policy, d.packet, v.replace, v.reset);
      var reach := AdmittedReach(s, limits, k, d, v.replace, v.reset);
      hide PreCheck, Sound, InProgress, Accepted, Receive, AdmittedReach, Genuine, Undamaged, Due, Fills, Empties;
      AcceptedUnserved(plans, At(s, k), d.policy, d.packet, v.replace, v.reset, d.intact, reach, HasRoom(s, limits));
    }
  }

  lemma TaskTaken(tasks: seq<Key>, i: nat)
    requires Distinct(tasks) && i < |tasks|
    ensures forall c :: c in tasks[..i] + tasks[i + 1..] <==> c in tasks && c != tasks[i]
  {
    assert tasks == tasks[..i] + [tasks[i]] + tasks[i + 1..];
    var rest := tasks[..i] + tasks[i + 1..];
    forall j | 0 <= j < |rest| ensures rest[j] != tasks[i] && rest[j] in tasks {
      assert rest[j] == if j < i then tasks[j] else tasks[j + 1];
    }
  }

  lemma FinalizedIsDue(plans: Plans, f: FileState, finish: Finish)
    requires ValidPlans(plans) && Sound(plans, f) && f.finalizing
    ensures Due(plans, Finalized(f, finish)) <==> !finish.Committed?
    ensures Finalized(f, finish).finalizing <==> finish.Escaped?
  {
    FinalizedSound(plans, f, finish);
    FinalizableIffComplete(plans, f);
  }

  lemma FinalizeUnserved(plans: Plans, s: Server, limits: Limits, i: nat, finish: Finish, k: Key)
    requires ValidPlans(plans) && Invariant(plans, s) && i < |s.tasks|
    ensures Unserved(plans, Step(s, limits, Finalize(i, finish)), k)
       <==> (s.tasks[i] == k && !finish.Committed?) || Unserved(plans, s, k)
    ensures s.tasks[i] == k ==> (At(Step(s, limits, Finalize(i, finish)), k).finalizing <==> finish.Escaped?)
  {
    TaskTaken(s.tasks, i);
    AtSound(plans, s, s.tasks[i]);
    assert s.tasks[i] in s.tasks;
    hide Finalized, Sound, InProgress, Due;
    FinalizedIsDue(plans, At(s, s.tasks[i]), finish);
  }

  lemma RestartUnserved(plans: Plans, s: Server, limits: Limits, order: seq<Key>, k: Key)
    requires ValidPlans(plans) && Invariant(plans, s) && Visits(s, order)
    ensures Unserved(plans, Step(s, limits, Restart(order)), k) <==> Abandons(plans, s, limits, Restart(order), k)
    ensures Due(plans, At(s, k)) ==> At(Step(s, limits, Restart(order)), k).finalizing
  {
    RestartAt(plans, s, limits, order, k);
    RestartQueues(plans, s, limits, order);
    RestartRaisesFlags(plans, s, limits, order, k);
    assert Due(plans, Reloaded(Crashed(At(s, k)))) == Due(plans, At(s, k));
  }

  /** One step, from every state that keeps the invariant and under every event: a file
      is complete without a task afterwards exactly when the event abandons it, or it
      was so before and the event does not relieve it. It is abandoned with its flag
      up by a start-up that runs out of room and by an exception that escapes the
      finalization; then every delivery is turned away until the next start-up. */
  lemma UnservedIff(plans: Plans, s: Server, limits: Limits, e: Event, k: Key)
    requires ValidPlans(plans) && Invariant(plans, s) && Allowed(plans, s, e)
    ensures Unserved(plans, Step(s, limits, e), k)
       <==> Abandons(plans, s, limits, e, k) || (Unserved(plans, s, k) && !Relieves(s, limits, e, k))
    ensures Abandons(plans, s, limits, e, k) ==>
              (Orphan(Step(s, limits, e), k) <==> e.Restart? || (e.Finalize? && e.finish.Escaped?))
  {
    match e
    case Deliver(d) => DeliverUnserved(plans, s, limits, d, k);
    case Finalize(i, finish) => FinalizeUnserved(plans, s, limits, i, finish, k);
    case Restart(order) =>
      hide Step, Due, DueKeys;
      RestartUnserved(plans, s, limits, order, k);
    case BlindRestart => ForgottenInvariant(plans, s);
    case _ =>
  }

  // ---------- Whole runs ----------

  /** Event m abandoned k, and no event before the n-th relieved it. */
  ghost predicate AbandonedSince(plans: Plans, s: Server, limits: Limits, events: seq<Event>, m: nat, n: nat, k: Key)
    requires ValidPlans(plans) && m < n <= |events|
  {
    && Abandons(plans, Run(s, limits, events[..m]), limits, events[m], k)
    && forall q :: m < q < n ==> !Relieves(Run(s, limits, events[..q]), limits, events[q], k)
  }

  ghost predicate Abandoned(plans: Plans, s: Server, limits: Limits, events: seq<Event>, n: nat, k: Key)
    requires ValidPlans(plans) && n <= |events|
  {
    exists m: nat :: m < n && AbandonedSince(plans, s, limits, events, m, n, k)
  }

  lemma AbandonedOneMore(plans: Plans, s: Server, limits: Limits, events: seq<Event>, before: nat, n: nat, k: Key)
    requires ValidPlans(plans) && before + 1 == n <= |events|
    ensures var x, e := Run(s, limits, events[..before]), events[before];
            Abandoned(plans, s, limits, events, n, k)
            <==> Abandons(plans, x, limits, e, k)
                 || (Abandoned(plans, s, limits, events, before, k) && !Relieves(x, limits, e, k))
  {
    hide Run, Abandons, Relieves;
    var x, e := Run(s, limits, events[..before]), events[before];
    if Abandons(plans, x, limits, e, k) {
      assert AbandonedSince(plans, s, limits, events, before, n, k);
    }
    if Abandoned(plans, s, limits, events, before, k) && !Relieves(x, limits, e, k) {
      var m: nat :| m < before && AbandonedSince(plans, s, limits, events, m, before, k);
      assert AbandonedSince(plans, s, limits, events, m, n, k);
    }
    if Abandoned(plans, s, limits, events, n, k) {
      var m: nat :| m < n && AbandonedSince(plans, s, limits, events, m, n, k);
      if m < before {
        assert AbandonedSince(plans, s, limits, events, m, before, k);
      }
    }
  }

  /** In every reachable state, a complete file lacks its task exactly when some event of
      the run abandoned it and none since relieved it. */
  lemma {:induction false} UnservedRunIff(
    plans: Plans, s: Server, limits: Limits, events: seq<Event>, n: nat, k: Key)
    requires ValidPlans(plans) && Initial(s) && AllowedRun(plans, s, limits, events) && n <= |events|
    ensures Unserved(plans, Run(s, limits, events[..n]), k) <==> Abandoned(plans, s, limits, events, n, k)
    decreases n
  {
    if n > 0 {
      var before := Run(s, limits, events[..n - 1]);
      UnservedRunIff(plans, s, limits, events, n - 1, k);
      RunInvariant(plans, s, limits, events, n - 1);
      AllowedPrefix(plans, s, limits, events, n - 1);
      RunUnfold(s, limits, events, n - 1);
      hide Run, Step, AllowedRun, Initial, Unserved, Abandons, Relieves, Abandoned;
      UnservedIff(plans, before, limits, events[n - 1], k);
      AbandonedOneMore(plans, s, limits, events, n - 1, n, k);
    }
  }
}
