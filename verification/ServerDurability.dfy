/** Acknowledged chunks survive, complete files are recovered - and the situations in
    which the server gets stuck. */
module ServerDurability {
  import opened Basics
  import opened TransferPlans
  import opened ServerFile
  import opened ServerSafety
  import opened ServerMachine
  import opened ServerRuns

  /** Chunk n of transfer t is held: as a success row, or inside the recorded file. */
  ghost predicate Held(f: FileState, t: TransferId, n: int) {
    f.record == Some(t) || (n in f.rows && f.rows[n].transferId == t && f.rows[n].status.Success?)
  }

  /** A chunk zero of another transfer reaches this file. */
  predicate Supersedes(s: Server, k: Key, t: TransferId, e: Event) {
    e.Deliver? && EffectiveKey(s, e.delivery) == k && e.delivery.packet.number == 0 && e.delivery.packet.transferId != t
  }

  // ---------- Acknowledged chunks stay ----------

  lemma AcceptedKeepsHeld(plans: Plans, f: FileState, policy: Policy, p: Packet, replace: bool, reset: bool,
                          intact: bool, reach: Reach, room: bool, t: TransferId, n: int)
    requires ValidPlans(plans) && Sound(plans, f) && Genuine(plans, p)
    requires PreCheck(f, policy, p) == Proceed(replace, reset)
    requires Held(f, t, n) && !(p.number == 0 && p.transferId != t)
    ensures Held(Accepted(f, p, replace, reset, intact, reach, room).file, t, n)
  {
    ProceedMeansReceptive(plans, f, policy, p, replace, reset);
    hide Sound, InProgress;
    if f.record != Some(t) {
      ProceedKeepsRow(f, p, intact, reach, room, n);
    }
  }

  /** Without a reset, a success row is never touched. */
  lemma ProceedKeepsRow(f: FileState, p: Packet, intact: bool, reach: Reach, room: bool, n: int)
    requires n in f.rows && f.rows[n].status.Success?
    ensures var g := Accepted(f, p, false, false, intact, reach, room).file;
            n in g.rows && g.rows[n] == f.rows[n]
  {
    hide MaxTotal, Successes;
  }

  lemma DeliverKeepsHeld(plans: Plans, s: Server, limits: Limits, d: Delivery, k: Key, t: TransferId, n: int)
    requires ValidPlans(plans) && Invariant(plans, s) && Allowed(plans, s, Deliver(d))
    requires Held(At(s, k), t, n) && !Supersedes(s, k, t, Deliver(d))
    ensures Held(At(Receive(s, limits, d).0, k), t, n)
  {
    hide Sound, Held, Accepted;
    DeliverIsLocal(plans, s, limits, d);
    if EffectiveKey(s, d) == k {
      AtSound(plans, s, k);
      match Decided(At(s, k), d)
      case Answered(_) =>
      case Proceed(rep, res) =>
        AcceptedKeepsHeld(plans, At(s, k), d.policy, d.packet, rep, res, d.intact,
                          AdmittedReach(s, limits, k, d, rep, res), HasRoom(s, limits), t, n);
    }
  }

  lemma FinalizedKeepsHeld(plans: Plans, f: FileState, finish: Finish, t: TransferId, n: int)
    requires ValidPlans(plans) && Sound(plans, f) && f.finalizing && Held(f, t, n)
    ensures Held(Finalized(f, finish), t, n)
  {
    FinalizedSound(plans, f, finish);
  }

  /** A held chunk stays held through every event, crashes included, unless a chunk
      zero of a different transfer resets the file. */
  lemma StepKeepsHeld(plans: Plans, s: Server, limits: Limits, e: Event, k: Key, t: TransferId, n: int)
    requires ValidPlans(plans) && Invariant(plans, s) && Allowed(plans, s, e)
    requires Held(At(s, k), t, n) && !Supersedes(s, k, t, e)
    ensures Held(At(Step(s, limits, e), k), t, n)
  {
    hide Sound, Receive, Finalized, Reloaded;
    match e
    case Deliver(d) => DeliverKeepsHeld(plans, s, limits, d, k, t, n);
    case Finalize(i, finish) =>
      assert s.tasks[i] in s.tasks;
      if s.tasks[i] == k {
        AtSound(plans, s, k);
        FinalizedKeepsHeld(plans, At(s, k), finish, t, n);
      }
    case BlindRestart => ForgottenInvariant(plans, s);
    case Restart(order) =>
      RestartAt(plans, s, limits, order, k);
      ReloadedKeepsRows(Crashed(At(s, k)));
    case _ =>
  }

  lemma ReloadedKeepsRows(f: FileState)
    ensures Reloaded(f).rows == f.rows && Reloaded(f).record == f.record && Reloaded(f).bytes == f.bytes
  {
  }

  lemma RestartAt(plans: Plans, s: Server, limits: Limits, order: seq<Key>, k: Key)
    requires ValidPlans(plans) && Invariant(plans, s) && Visits(s, order)
    ensures At(Step(s, limits, Restart(order)), k) == Reloaded(Crashed(At(s, k)))
  {
    ForgottenInvariant(plans, s);
    RecoverFacts(plans, Forgotten(s), limits, order);
    AtSound(plans, Forgotten(s), k);
  }

  lemma AcceptedAnswerIsHeld(plans: Plans, f: FileState, policy: Policy, p: Packet, replace: bool, reset: bool,
                             intact: bool, reach: Reach, room: bool)
    requires ValidPlans(plans) && Sound(plans, f) && Genuine(plans, p)
    requires PreCheck(f, policy, p) == Proceed(replace, reset)
    requires Undamaged(plans, p, intact, reach)
    requires Accepted(f, p, replace, reset, intact, reach, room).answer in {Stored, JustCompleted}
    ensures Held(Accepted(f, p, replace, reset, intact, reach, room).file, p.transferId, p.number)
  {
    ProceedMeansReceptive(plans, f, policy, p, replace, reset);
    if reset || p.number !in f.rows || !f.rows[p.number].status.Success? {
      ProgressSound(plans, f, policy, p, replace, reset, reach);
    }
  }

  /** The answers Stored and JustCompleted mean the chunk is held. */
  lemma AcknowledgedIsHeld(plans: Plans, s: Server, limits: Limits, d: Delivery)
    requires ValidPlans(plans) && Invariant(plans, s) && Allowed(plans, s, Deliver(d))
    requires Receive(s, limits, d).1 in {Stored, JustCompleted}
    ensures Held(At(Receive(s, limits, d).0, EffectiveKey(s, d)), d.packet.transferId, d.packet.number)
  {
    DeliverIsLocal(plans, s, limits, d);
    var k := EffectiveKey(s, d);
    AtSound(plans, s, k);
    match Decided(At(s, k), d)
    case Answered(_) =>
    case Proceed(rep, res) =>
      AcceptedAnswerIsHeld(plans, At(s, k), d.policy, d.packet, rep, res, d.intact,
                           AdmittedReach(s, limits, k, d, rep, res), HasRoom(s, limits));
  }

  /** Event i is a delivery of chunk n of t for file k, answered Stored or JustCompleted. */
  ghost predicate Acknowledges(s: Server, limits: Limits, events: seq<Event>, i: nat, k: Key, t: TransferId, n: int)
    requires i < |events|
  {
    var before := Run(s, limits, events[..i]);
    && events[i].Deliver?
    && events[i].delivery.packet.transferId == t && events[i].delivery.packet.number == n
    && EffectiveKey(before, events[i].delivery) == k
    && Receive(before, limits, events[i].delivery).1 in {Stored, JustCompleted}
  }

  /** No chunk zero of another transfer reaches file k between events i and j. */
  ghost predicate Undisturbed(s: Server, limits: Limits, events: seq<Event>, i: nat, j: nat, k: Key, t: TransferId)
    requires j <= |events|
  {
    forall m :: i < m < j ==> !Supersedes(Run(s, limits, events[..m]), k, t, events[m])
  }

  lemma AcknowledgedNowHeld(
    plans: Plans, s: Server, limits: Limits, events: seq<Event>, i: nat, k: Key, t: TransferId, n: int)
    requires ValidPlans(plans) && Initial(s) && AllowedRun(plans, s, limits, events)
    requires i < |events| && Acknowledges(s, limits, events, i, k, t, n)
    ensures Held(At(Run(s, limits, events[..i + 1]), k), t, n)
  {
    AllowedPrefix(plans, s, limits, events, i);
    RunUnfold(s, limits, events, i);
    RunKeepsInvariant(plans, s, limits, events[..i]);
    AcknowledgedIsHeld(plans, Run(s, limits, events[..i]), limits, events[i].delivery);
  }

  /** Durability over runs: once acknowledged, a chunk is held in every later state,
      until a chunk zero of a different transfer arrives for that file. */
  lemma AcknowledgedStaysHeld(
    plans: Plans, s: Server, limits: Limits, events: seq<Event>, i: nat, j: nat, k: Key, t: TransferId, n: int)
    requires ValidPlans(plans) && Initial(s) && AllowedRun(plans, s, limits, events)
    requires i < j <= |events| && Acknowledges(s, limits, events, i, k, t, n)
    requires Undisturbed(s, limits, events, i, j, k, t)
    ensures Held(At(Run(s, limits, events[..j]), k), t, n)
  {
    AcknowledgedNowHeld(plans, s, limits, events, i, k, t, n);
    hide Held, Supersedes;
    forall x, e | Invariant(plans, x) && Allowed(plans, x, e) && Held(At(x, k), t, n) && !Supersedes(x, k, t, e)
      ensures Held(At(Step(x, limits, e), k), t, n)
    {
      StepKeepsHeld(plans, x, limits, e, k, t, n);
    }
    Along(plans, s, limits, events, i + 1, j, x => Held(At(x, k), t, n), (x, e) => !Supersedes(x, k, t, e));
  }

  // ---------- Recovery after a restart ----------

  /** A file a restart should finalize: in progress, unrecorded, all chunks stored. */
  ghost predicate Due(plans: Plans, f: FileState)
    requires ValidPlans(plans)
  {
    f.rows != map[] && ActiveTransfer(f) in plans && Complete(plans[ActiveTransfer(f)], f.rows)
  }

  /** The due files, in the order the restart visits them. */
  ghost function DueKeys(plans: Plans, s: Server, order: seq<Key>): (due: seq<Key>)
    requires ValidPlans(plans)
    ensures forall k :: k in due <==> k in order && Due(plans, At(s, k))
    ensures |due| <= |order|
  {
    if order == [] then []
    else
      assert order == [order[0]] + order[1..];
      (if Due(plans, At(s, order[0])) then [order[0]] else []) + DueKeys(plans, s, order[1..])
  }

  lemma {:induction false} DueKeysUnaffected(plans: Plans, s: Server, s': Server, order: seq<Key>)
    requires ValidPlans(plans)
    requires forall k :: k in order ==> At(s, k) == At(s', k)
    ensures DueKeys(plans, s, order) == DueKeys(plans, s', order)
  {
    if order != [] {
      DueKeysUnaffected(plans, s, s', order[1..]);
    }
  }

  /** A bounded queue after it has been offered the given keys in order. */
  ghost function Filled(tasks: seq<Key>, due: seq<Key>, cap: nat): seq<Key>
    requires |tasks| <= cap
  {
    tasks + due[..Min(|due|, cap - |tasks|)]
  }

  /** Filling a bounded queue one key at a time is filling it with a prefix. */
  lemma FillOne(tasks: seq<Key>, k: Key, due: bool, rest: seq<Key>, cap: nat)
    requires |tasks| <= cap
    ensures Filled(if due && |tasks| < cap then tasks + [k] else tasks, rest, cap)
         == Filled(tasks, (if due then [k] else []) + rest, cap)
  {
    if due && |tasks| < cap {
      assert ([k] + rest)[..Min(|rest| + 1, cap - |tasks|)] == [k] + rest[..Min(|rest|, cap - |tasks| - 1)];
    } else if !due {
      assert [] + rest == rest;
    }
  }

  lemma RecoverOneQueues(plans: Plans, s: Server, limits: Limits, k: Key)
    requires ValidPlans(plans) && Invariant(plans, s) && !At(s, k).finalizing
    ensures RecoverOne(s, limits, k).tasks
         == if Due(plans, At(s, k)) && HasRoom(s, limits) then s.tasks + [k] else s.tasks
    ensures RecoverOne(s, limits, k).others == s.others && RecoverOne(s, limits, k).stopped == s.stopped
  {
    ReloadedSound(plans, At(s, k));
  }

  /** The tasks after reloading are the due files, in visiting order, cut off where
      the queue is full. */
  lemma {:induction false} RecoverQueues(plans: Plans, s: Server, limits: Limits, order: seq<Key>)
    requires ValidPlans(plans) && Invariant(plans, s) && Distinct(order)
    requires forall k :: k in order ==> !At(s, k).finalizing
    requires |s.tasks| <= limits.queueCapacity && s.others == 0 && !s.stopped
    ensures Recover(s, limits, order).tasks == Filled(s.tasks, DueKeys(plans, s, order), limits.queueCapacity)
    decreases order
  {
    if order != [] {
      var k, rest := order[0], order[1..];
      DistinctTail(order);
      RecoverOneFacts(plans, s, limits, k);
      RecoverOneQueues(plans, s, limits, k);
      var s1 := RecoverOne(s, limits, k);
      RecoverQueues(plans, s1, limits, rest);
      DueKeysUnaffected(plans, s, s1, rest);
      FillOne(s.tasks, k, Due(plans, At(s, k)), DueKeys(plans, s, rest), limits.queueCapacity);
    }
  }

  ghost predicate NoOrphanFlags(s: Server) {
    forall k :: At(s, k).finalizing ==> k in s.tasks
  }

  /** After a restart the flags are up exactly on the due files. */
  lemma RestartRaisesFlags(plans: Plans, s: Server, limits: Limits, order: seq<Key>, k: Key)
    requires ValidPlans(plans) && Invariant(plans, s) && Visits(s, order)
    ensures At(Step(s, limits, Restart(order)), k).finalizing <==> Due(plans, At(s, k))
  {
    hide Reloaded, Step;
    AtSound(plans, s, k);
    RestartAt(plans, s, limits, order, k);
    ReloadedSound(plans, Crashed(At(s, k)));
  }

  /** The tasks after a restart are a prefix of the due files, without repetition. */
  lemma RestartQueues(plans: Plans, s: Server, limits: Limits, order: seq<Key>)
    requires ValidPlans(plans) && Invariant(plans, s) && Visits(s, order)
    ensures var due := DueKeys(plans, Forgotten(s), order);
            && Step(s, limits, Restart(order)).tasks == due[..Min(|due|, limits.queueCapacity)]
            && Distinct(due)
            && forall k :: k in due <==> Due(plans, At(s, k))
  {
    hide Reloaded, Sound;
    ForgottenInvariant(plans, s);
    var s0 := Forgotten(s);
    RecoverQueues(plans, s0, limits, order);
    DueKeysDistinct(plans, s0, order);
    assert forall k :: Due(plans, At(s0, k)) == Due(plans, At(s, k));
  }

  /** After a restart every flagged file has its task if and only if the queue had
      room for all due files: a flag is raised before its task is offered and stays
      up when the queue refuses it. With room, the tasks are exactly the due files. */
  lemma RestartRecovers(plans: Plans, s: Server, limits: Limits, order: seq<Key>)
    requires ValidPlans(plans) && Invariant(plans, s) && Visits(s, order)
    ensures var s' := Step(s, limits, Restart(order));
            && (NoOrphanFlags(s') <==> |DueKeys(plans, Forgotten(s), order)| <= limits.queueCapacity)
            && (NoOrphanFlags(s') ==> forall k :: k in s'.tasks <==> Due(plans, At(s, k)))
  {
    hide Sound, Step, At, Due;
    RestartQueues(plans, s, limits, order);
    forall k ensures At(Step(s, limits, Restart(order)), k).finalizing <==> Due(plans, At(s, k)) {
      RestartRaisesFlags(plans, s, limits, order, k);
    }
    var due := DueKeys(plans, Forgotten(s), order);
    if |due| > limits.queueCapacity {
      assert due[limits.queueCapacity] in due;
    } else {
      assert due[..|due|] == due;
    }
  }

  lemma {:induction false} DueKeysDistinct(plans: Plans, s: Server, order: seq<Key>)
    requires ValidPlans(plans)
    requires Distinct(order)
    ensures Distinct(DueKeys(plans, s, order))
  {
    if order != [] {
      DistinctTail(order);
      DueKeysDistinct(plans, s, order[1..]);
    }
  }

  /** Wherever the task of k stands in the queue, running it records t with exactly
      its content. */
  ghost predicate TaskDelivers(plans: Plans, s: Server, limits: Limits, k: Key, t: TransferId)
    requires t in plans
  {
    && k in s.tasks
    && forall i :: 0 <= i < |s.tasks| && s.tasks[i] == k ==>
         && At(Step(s, limits, Finalize(i, Committed)), k).record == Some(t)
         && At(Step(s, limits, Finalize(i, Committed)), k).bytes == Some(plans[t].content)
  }

  lemma FlaggedTaskDelivers(plans: Plans, s: Server, limits: Limits, k: Key)
    requires ValidPlans(plans) && Invariant(plans, s) && k in s.tasks
    ensures ActiveTransfer(At(s, k)) in plans && TaskDelivers(plans, s, limits, k, ActiveTransfer(At(s, k)))
  {
    hide Sound, Finalized;
    AtSound(plans, s, k);
    FinalizedSound(plans, At(s, k), Committed);
  }

  /** All chunks acknowledged is enough: once every chunk of a transfer is held, a
      restart with queue room leaves the file recorded, or with a task that records
      it, with exactly the sent bytes. */
  lemma AllHeldIsDelivered(plans: Plans, s: Server, limits: Limits, order: seq<Key>, k: Key, t: TransferId)
    requires ValidPlans(plans) && Invariant(plans, s) && Visits(s, order) && t in plans
    requires |DueKeys(plans, Forgotten(s), order)| <= limits.queueCapacity
    requires forall n :: 0 <= n < plans[t].Count() ==> Held(At(s, k), t, n)
    ensures var s' := Step(s, limits, Restart(order));
            (At(s', k).record == Some(t) && At(s', k).bytes == Some(plans[t].content))
            || TaskDelivers(plans, s', limits, k, t)
  {
    hide Sound, Reloaded, Step, Held, Due, TaskDelivers, DueKeys;
    AtSound(plans, s, k);
    RestartAt(plans, s, limits, order, k);
    ReloadedKeepsRows(Crashed(At(s, k)));
    var s' := Step(s, limits, Restart(order));
    if At(s, k).record == Some(t) {
      SoundRecord(plans, At(s, k));
    } else {
      HeldAllIsDue(plans, At(s, k), t);
      RestartRecovers(plans, s, limits, order);
      StepKeepsInvariant(plans, s, limits, Restart(order));
      FlaggedTaskDelivers(plans, s', limits, k);
    }
  }

  lemma SoundRecord(plans: Plans, f: FileState)
    requires ValidPlans(plans) && Sound(plans, f) && f.record.Some?
    ensures f.record.value in plans && f.bytes == Some(plans[f.record.value].content)
  {
  }

  lemma HeldAllIsDue(plans: Plans, f: FileState, t: TransferId)
    requires ValidPlans(plans) && Sound(plans, f) && t in plans && f.record != Some(t)
    requires forall n :: 0 <= n < plans[t].Count() ==> Held(f, t, n)
    ensures Due(plans, f) && ActiveTransfer(f) == t
    ensures ActiveTransfer(Reloaded(Crashed(f))) == t
  {
    assert Held(f, t, 0);
    RowsShareTransfer(plans, f, 0);
    hide Sound;
    forall n | 0 <= n < plans[t].Count() ensures n in f.rows && f.rows[n].status.Success? {
      assert Held(f, t, n);
    }
    ReloadedKeepsRows(Crashed(f));
  }

  // ---------- Files nothing but a restart brings back ----------

  /** A flag without a task. */
  predicate Orphan(s: Server, k: Key) { At(s, k).finalizing && k !in s.tasks }

  lemma OrphanStep(plans: Plans, s: Server, limits: Limits, e: Event, k: Key)
    requires ValidPlans(plans) && Invariant(plans, s) && Allowed(plans, s, e) && !e.StartsUp() && Orphan(s, k)
    ensures var s' := Step(s, limits, e);
            At(s', k) == At(s, k) && Orphan(s', k)
    ensures e.Deliver? && EffectiveKey(s, e.delivery) == k ==>
              Receive(s, limits, e.delivery).1 in {AlreadyCompleted, Failed}
  {
    match e
    case Deliver(d) =>
      DeliverIsLocal(plans, s, limits, d);
      DeliverKeepsFrozen(plans, s, limits, d, k);
      if EffectiveKey(s, d) == k {
        match Decided(At(s, k), d)
        case Answered(_) =>
        case Proceed(rep, res) => ProceedMeansReceptive(plans, At(s, k), d.policy, d.packet, rep, res);
      }
    case Finalize(i, finish) => FinalizeElsewhere(s, limits, i, finish, k);
    case _ =>
  }

  lemma FinalizeElsewhere(s: Server, limits: Limits, i: nat, finish: Finish, k: Key)
    requires i < |s.tasks| && k !in s.tasks
    ensures At(Step(s, limits, Finalize(i, finish)), k) == At(s, k) && k !in Step(s, limits, Finalize(i, finish)).tasks
  {
    assert s.tasks[i] in s.tasks;
    var rest := s.tasks[..i] + s.tasks[i + 1..];
    assert forall j :: 0 <= j < |rest| ==> rest[j] in s.tasks;
  }

  /** Over runs: a flag without a task is never lowered before the next restart. The
      file stays as it is, and every delivery for it is answered AlreadyCompleted
      or Failed. */
  lemma OrphanFlagIsStuck(plans: Plans, s: Server, limits: Limits, events: seq<Event>, i: nat, j: nat, k: Key)
    requires ValidPlans(plans) && Initial(s) && AllowedRun(plans, s, limits, events) && i <= j <= |events|
    requires Orphan(Run(s, limits, events[..i]), k) && forall m :: i <= m < j ==> !events[m].StartsUp()
    ensures var later := Run(s, limits, events[..j]);
            && Orphan(later, k) && At(later, k) == At(Run(s, limits, events[..i]), k)
            && (forall d :: Allowed(plans, later, Deliver(d)) && EffectiveKey(later, d) == k ==>
                              Receive(later, limits, d).1 in {AlreadyCompleted, Failed})
  {
    hide Orphan;
    var f := At(Run(s, limits, events[..i]), k);
    forall x, e | Invariant(plans, x) && Allowed(plans, x, e) && Orphan(x, k) && At(x, k) == f && !e.StartsUp()
      ensures Orphan(Step(x, limits, e), k) && At(Step(x, limits, e), k) == f
    {
      OrphanStep(plans, x, limits, e, k);
    }
    Along(plans, s, limits, events, i, j, x => Orphan(x, k) && At(x, k) == f, (x: Server, e: Event) => !e.StartsUp());
    var later := Run(s, limits, events[..j]);
    RunInvariant(plans, s, limits, events, j);
    forall d | Allowed(plans, later, Deliver(d)) && EffectiveKey(later, d) == k
      ensures Receive(later, limits, d).1 in {AlreadyCompleted, Failed}
    {
      OrphanStep(plans, later, limits, Deliver(d), k);
    }
  }

  /** Every chunk is stored, but neither the flag is up nor a task queued. */
  ghost predicate Unqueued(plans: Plans, s: Server, k: Key)
    requires ValidPlans(plans)
  {
    Due(plans, At(s, k)) && !At(s, k).finalizing && k !in s.tasks
  }

  /** The answer JustCompleted leaves a complete file, and exactly when the thread pool
      refused the task one without flag and task. The pool's queue is shared, so
      waiting client connections can fill it. */
  lemma JustCompletedMeans(plans: Plans, s: Server, limits: Limits, d: Delivery)
    requires ValidPlans(plans) && Invariant(plans, s) && Allowed(plans, s, Deliver(d))
    requires Receive(s, limits, d).1 == JustCompleted
    ensures var (s', k) := (Receive(s, limits, d).0, EffectiveKey(s, d));
            && Due(plans, At(s', k)) && ActiveTransfer(At(s', k)) == d.packet.transferId
            && (Unqueued(plans, s', k) <==> s.stopped || |s.tasks| + s.others >= limits.queueCapacity)
            && (!Unqueued(plans, s', k) ==> At(s', k).finalizing && k in s'.tasks)
  {
    DeliverIsLocal(plans, s, limits, d);
    var k := EffectiveKey(s, d);
    AtSound(plans, s, k);
    match Decided(At(s, k), d)
    case Answered(_) =>
    case Proceed(rep, res) =>
      ProceedMeansReceptive(plans, At(s, k), d.policy, d.packet, rep, res);
      assert k !in s.tasks;
      CompletedIffAllStored(plans, At(s, k), d.policy, d.packet, rep, res, HasRoom(s, limits));
  }

  lemma UnqueuedAccepted(plans: Plans, f: FileState, p: Packet, intact: bool, reach: Reach, room: bool)
    requires ValidPlans(plans) && Sound(plans, f) && Genuine(plans, p)
         && Due(plans, f) && p.transferId == ActiveTransfer(f)
    ensures Accepted(f, p, false, false, intact, reach, room).file == f
    ensures Accepted(f, p, false, false, intact, reach, room).answer in {Stored, Failed}
    ensures !Accepted(f, p, false, false, intact, reach, room).enqueue
  {
  }

  lemma UnqueuedStep(plans: Plans, s: Server, limits: Limits, e: Event, k: Key)
    requires ValidPlans(plans) && Invariant(plans, s) && Allowed(plans, s, e) && !e.StartsUp() && Unqueued(plans, s, k)
    requires !Supersedes(s, k, ActiveTransfer(At(s, k)), e)
    ensures var s' := Step(s, limits, e);
            At(s', k) == At(s, k) && Unqueued(plans, s', k)
    ensures e.Deliver? && EffectiveKey(s, e.delivery) == k ==> Receive(s, limits, e.delivery).1 in {Stored, Failed}
  {
    match e
    case Deliver(d) =>
      DeliverIsLocal(plans, s, limits, d);
      AtSound(plans, s, k);
      if EffectiveKey(s, d) == k && Decided(At(s, k), d).Proceed? {
        var reach := AdmittedReach(s, limits, k, d, false, false);
        UnqueuedAccepted(plans, At(s, k), d.packet, d.intact, reach, HasRoom(s, limits));
        hide Accepted;
      }
    case Finalize(i, finish) => FinalizeElsewhere(s, limits, i, finish, k);
    case _ =>
  }

  /** Over runs: a complete file without flag and task stays complete, unflagged
      and unqueued until a restart or a chunk zero of another transfer: sending its
      chunks again is answered Stored or Failed and queues nothing. */
  lemma UnqueuedIsStuck(plans: Plans, s: Server, limits: Limits, events: seq<Event>, i: nat, j: nat, k: Key)
    requires ValidPlans(plans) && Initial(s) && AllowedRun(plans, s, limits, events) && i <= j <= |events|
    requires var f := At(Run(s, limits, events[..i]), k);
             && Unqueued(plans, Run(s, limits, events[..i]), k)
             && forall m :: i <= m < j ==>
                  !events[m].StartsUp() && !Supersedes(Run(s, limits, events[..m]), k, ActiveTransfer(f), events[m])
    ensures var f := At(Run(s, limits, events[..i]), k);
            var later := Run(s, limits, events[..j]);
            && Unqueued(plans, later, k) && At(later, k) == f
            && (forall d :: Allowed(plans, later, Deliver(d)) && EffectiveKey(later, d) == k
                            && d.packet.transferId == ActiveTransfer(f) ==>
                              Receive(later, limits, d).1 in {Stored, Failed})
  {
    hide Unqueued;
    var f := At(Run(s, limits, events[..i]), k);
    var t := ActiveTransfer(f);
    forall x, e | Invariant(plans, x) && Allowed(plans, x, e) && Unqueued(plans, x, k) && At(x, k) == f
                  && !e.StartsUp() && !Supersedes(x, k, t, e)
      ensures Unqueued(plans, Step(x, limits, e), k) && At(Step(x, limits, e), k) == f
    {
      UnqueuedStep(plans, x, limits, e, k);
    }
    Along(plans, s, limits, events, i, j,
          x => Unqueued(plans, x, k) && At(x, k) == f,
          (x: Server, e: Event) => !e.StartsUp() && !Supersedes(x, k, t, e));
    var later := Run(s, limits, events[..j]);
    RunInvariant(plans, s, limits, events, j);
    forall d | Allowed(plans, later, Deliver(d)) && EffectiveKey(later, d) == k && d.packet.transferId == t
      ensures Receive(later, limits, d).1 in {Stored, Failed}
    {
      UnqueuedStep(plans, later, limits, Deliver(d), k);
    }
  }

  // ---------- What AlreadyCompleted does not say ----------

  /** AlreadyCompleted changes nothing. It is true of the sent transfer - all of its
      chunks are held, and the file is its content - exactly when that transfer is
      the recorded one or the one being finalized. */
  lemma AlreadyCompletedMeans(plans: Plans, s: Server, limits: Limits, d: Delivery)
    requires ValidPlans(plans) && Invariant(plans, s) && Allowed(plans, s, Deliver(d))
    requires Receive(s, limits, d).1 == AlreadyCompleted
    ensures var f := At(s, EffectiveKey(s, d));
            var t := d.packet.transferId;
            && Receive(s, limits, d).0 == s
            && ((f.record == Some(t) || (f.finalizing && ActiveTransfer(f) == t))
                 <==> (forall n :: 0 <= n < plans[t].Count() ==> Held(f, t, n)))
            && (f.record == Some(t) || (f.finalizing && ActiveTransfer(f) == t) ==> f.bytes == Some(plans[t].content))
  {
    DeliverIsLocal(plans, s, limits, d);
    var f, t := At(s, EffectiveKey(s, d)), d.packet.transferId;
    AtSound(plans, s, EffectiveKey(s, d));
    if f.finalizing {
      CompleteMeansContent(plans, f);
    }
    if forall n :: 0 <= n < plans[t].Count() ==> Held(f, t, n) {
      assert Held(f, t, 0);
    }
  }

  /** An output file without rows and without a record. */
  predicate Stranded(f: FileState) {
    f.rows == map[] && f.record.None? && f.bytes.Some?
  }

  /** A delivery past the pre-check strands the file exactly when its digest holds and
      it is cut, by a crash or a failed effect, at one of two places: after the
      transaction that empties a replaced or reset file, before the old output is
      removed; or after a new output exists and before its first row does. */
  lemma DeliveryStrands(plans: Plans, f: FileState, policy: Policy, p: Packet, replace: bool, reset: bool,
                        intact: bool, reach: Reach, room: bool)
    requires ValidPlans(plans) && Sound(plans, f) && Genuine(plans, p)
    requires PreCheck(f, policy, p) == Proceed(replace, reset)
    ensures Stranded(Accepted(f, p, replace, reset, intact, reach, room).file)
       <==> intact && (((replace || reset) && reach.RowsDropped?)
                       || ((replace || reset || f.rows == map[])
                           && (reach.FileCreated? || reach.FileSized? || reach.Torn? || reach.BytesWritten?)))
  {
    ProceedMeansReceptive(plans, f, policy, p, replace, reset);
  }

  /** How a delivery to a stranded file is answered. */
  function StrandedAnswer(d: Delivery): Answer {
    if d.reach.Unchecked? then Failed else AlreadyCompleted
  }

  lemma StrandedStep(plans: Plans, s: Server, limits: Limits, e: Event, k: Key)
    requires ValidPlans(plans) && Invariant(plans, s) && Allowed(plans, s, e) && Stranded(At(s, k))
    ensures Stranded(At(Step(s, limits, e), k)) && At(Step(s, limits, e), k).bytes == At(s, k).bytes
    ensures e.Deliver? && EffectiveKey(s, e.delivery) == k ==>
              Receive(s, limits, e.delivery).1 == StrandedAnswer(e.delivery)
  {
    AtSound(plans, s, k);
    match e
    case Deliver(d) => DeliverIsLocal(plans, s, limits, d);
    case Finalize(i, finish) => assert s.tasks[i] in s.tasks;
    case BlindRestart => ForgottenInvariant(plans, s);
    case Restart(order) =>
      ForgottenInvariant(plans, s);
      RecoverFacts(plans, Forgotten(s), limits, order);
    case _ =>
  }

  /** Over runs: a stranded file stays as it is for ever, under every policy and across
      restarts, and every delivery that acts on it is answered AlreadyCompleted,
      or Failed when a read of its pre-check fails. */
  lemma StrandedForEver(plans: Plans, s: Server, limits: Limits, events: seq<Event>, i: nat, j: nat, k: Key)
    requires ValidPlans(plans) && Initial(s) && AllowedRun(plans, s, limits, events) && i <= j <= |events|
    requires Stranded(At(Run(s, limits, events[..i]), k))
    ensures var later := Run(s, limits, events[..j]);
            && Stranded(At(later, k)) && At(later, k).bytes == At(Run(s, limits, events[..i]), k).bytes
            && (forall d :: Allowed(plans, later, Deliver(d)) && EffectiveKey(later, d) == k ==>
                              Receive(later, limits, d).1 == StrandedAnswer(d))
  {
    hide Stranded;
    var bytes := At(Run(s, limits, events[..i]), k).bytes;
    forall x, e | Invariant(plans, x) && Allowed(plans, x, e) && Stranded(At(x, k)) && At(x, k).bytes == bytes
      ensures Stranded(At(Step(x, limits, e), k)) && At(Step(x, limits, e), k).bytes == bytes
    {
      StrandedStep(plans, x, limits, e, k);
    }
    Along(plans, s, limits, events, i, j, x => Stranded(At(x, k)) && At(x, k).bytes == bytes,
          (x: Server, e: Event) => true);
    var later := Run(s, limits, events[..j]);
    RunInvariant(plans, s, limits, events, j);
    forall d | Allowed(plans, later, Deliver(d)) && EffectiveKey(later, d) == k
      ensures Receive(later, limits, d).1 == StrandedAnswer(d)
    {
      StrandedStep(plans, later, limits, Deliver(d), k);
    }
  }
}
