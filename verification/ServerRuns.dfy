/** Theorems about every run of the server: any order, duplication, loss, damage
    and supersession of deliveries, any finalization schedule, any crash. */
module ServerRuns {
  import opened Basics
  import opened TransferPlans
  import opened ServerFile
  import opened ServerSafety
  import opened ServerMachine

  /** The hypotheses on one event: deliveries carry planned metadata, a damaged
      payload never passes its digest, versioned names are fresh, and a restart
      visits every in-progress file once. */
  ghost predicate Allowed(plans: Plans, s: Server, e: Event)
    requires ValidPlans(plans)
  {
    match e
    case Deliver(d) =>
      Genuine(plans, d.packet) && Undamaged(plans, d.packet, d.intact, d.reach) && At(s, d.freshKey) == Absent
    case Finalize(i, _) => i < |s.tasks|
    case Restart(order) => Visits(s, order)
    case _ => true
  }

  ghost predicate Distinct(keys: seq<Key>) {
    forall i, j :: 0 <= i < j < |keys| ==> keys[i] != keys[j]
  }

  ghost predicate Visits(s: Server, order: seq<Key>) {
    && Distinct(order)
    && (forall k :: k in s.files && s.files[k].rows != map[] ==> k in order)
  }

  ghost predicate AllowedRun(plans: Plans, s: Server, limits: Limits, events: seq<Event>)
    requires ValidPlans(plans)
    decreases |events|
  {
    events != [] ==>
      var before := events[..|events| - 1];
      AllowedRun(plans, s, limits, before) && Allowed(plans, Run(s, limits, before), events[|events| - 1])
  }

  ghost predicate Invariant(plans: Plans, s: Server)
    requires ValidPlans(plans)
  {
    && (forall k :: k in s.files ==> Sound(plans, s.files[k]))
    && (forall k :: k in s.tasks ==> At(s, k).finalizing)
    && Distinct(s.tasks)
  }

  ghost predicate WithinBudget(s: Server, limits: Limits) {
    forall c :: Usage(s.files, c) <= limits.maxClientStorage
  }

  // ---------- One step ----------

  /** A delivery acts on one file; what happens to it is `Accepted` on that file. */
  lemma DeliverIsLocal(plans: Plans, s: Server, limits: Limits, d: Delivery)
    requires ValidPlans(plans) && Invariant(plans, s) && Allowed(plans, s, Deliver(d))
    ensures var k := EffectiveKey(s, d);
            var (s', a) := Receive(s, limits, d);
            match Decided(At(s, k), d)
            case Answered(x) => s' == s.(versioned := s'.versioned) && a == x && (x != Failed ==> s' == s)
            case UseFreshName => false
            case Proceed(rep, res) =>
              var reach := AdmittedReach(s, limits, k, d, rep, res);
              var r := Accepted(At(s, k), d.packet, rep, res, d.intact, reach, HasRoom(s, limits));
              && s'.files == s.files[k := r.file] && a == r.answer && s'.others == s.others && s'.stopped == s.stopped
              && s'.tasks == (if r.enqueue then s.tasks + [k] else s.tasks)
              && Undamaged(plans, d.packet, d.intact, reach)
  {
    var k := LookupKey(s, d);
    if Decided(At(s, k), d).UseFreshName? {
      assert Decided(Absent, d) == Proceed(false, false);
    }
  }

  lemma AtSound(plans: Plans, s: Server, k: Key)
    requires ValidPlans(plans) && Invariant(plans, s)
    ensures Sound(plans, At(s, k))
  {
  }

  /** Appending a new task keeps the tasks distinct. */
  lemma TaskAdded(tasks: seq<Key>, k: Key)
    requires Distinct(tasks) && k !in tasks
    ensures Distinct(tasks + [k]) && forall c :: c in tasks + [k] <==> c in tasks || c == k
  {
  }

  /** Replacing one file by a sound one, with its flag up if it is to have a task. */
  lemma ReplacedKeepsInvariant(plans: Plans, s: Server, s': Server, k: Key, f: FileState, enqueue: bool)
    requires ValidPlans(plans) && Invariant(plans, s) && Sound(plans, f) && k !in s.tasks
    requires s'.files == s.files[k := f] && s'.tasks == if enqueue then s.tasks + [k] else s.tasks
    requires enqueue ==> f.finalizing
    ensures Invariant(plans, s')
  {
    hide Sound, Distinct;
    TaskAdded(s.tasks, k);
  }

  lemma DeliverKeepsInvariant(plans: Plans, s: Server, limits: Limits, d: Delivery)
    requires ValidPlans(plans) && Invariant(plans, s) && Allowed(plans, s, Deliver(d))
    ensures Invariant(plans, Receive(s, limits, d).0)
  {
    hide Sound, Accepted, Genuine, Undamaged, AdmittedReach, PreCheck, Receive, Distinct, HasRoom;
    DeliverIsLocal(plans, s, limits, d);
    var k := EffectiveKey(s, d);
    AtSound(plans, s, k);
    match Decided(At(s, k), d)
    case Answered(_) =>
    case Proceed(rep, res) =>
      var reach := AdmittedReach(s, limits, k, d, rep, res);
      AcceptedSound(plans, At(s, k), d.policy, d.packet, rep, res, d.intact, reach, HasRoom(s, limits));
      ProceedMeansReceptive(plans, At(s, k), d.policy, d.packet, rep, res);
      assert k !in s.tasks;
      var r := Accepted(At(s, k), d.packet, rep, res, d.intact, reach, HasRoom(s, limits));
      hide Invariant;
      ReplacedKeepsInvariant(plans, s, Receive(s, limits, d).0, k, r.file, r.enqueue);
  }

  lemma FinalizeKeepsInvariant(plans: Plans, s: Server, limits: Limits, i: nat, finish: Finish)
    requires ValidPlans(plans) && Invariant(plans, s) && i < |s.tasks|
    ensures Invariant(plans, Step(s, limits, Finalize(i, finish)))
  {
    hide Sound, Finalized;
    var k := s.tasks[i];
    FinalizedSound(plans, At(s, k), finish);
    var rest := s.tasks[..i] + s.tasks[i + 1..];
    forall j | 0 <= j < |rest| ensures rest[j] != k && rest[j] in s.tasks {
      assert rest[j] == if j < i then s.tasks[j] else s.tasks[j + 1];
    }
  }

  lemma ReloadedSound(plans: Plans, f: FileState)
    requires ValidPlans(plans) && Sound(plans, f)
    ensures Sound(plans, Reloaded(f))
    ensures f.rows != map[] ==> (Reloaded(f).finalizing <==> f.finalizing || Complete(plans[ActiveTransfer(f)], f.rows))
    ensures f.rows == map[] ==> Reloaded(f) == f
  {
    if f.rows != map[] {
      CountingIffComplete(plans[ActiveTransfer(f)], ActiveTransfer(f), f.rows, f.bytes.value);
    }
  }

  lemma RecoverOneFacts(plans: Plans, s: Server, limits: Limits, k: Key)
    requires ValidPlans(plans) && Invariant(plans, s)
    ensures Invariant(plans, RecoverOne(s, limits, k))
    ensures forall j :: At(RecoverOne(s, limits, k), j) == if j == k then Reloaded(At(s, k)) else At(s, j)
  {
    hide Sound, Reloaded, Distinct, HasRoom;
    ReloadedSound(plans, At(s, k));
    if k !in s.tasks {
      TaskAdded(s.tasks, k);
    }
  }

  lemma DistinctTail(order: seq<Key>)
    requires Distinct(order) && order != []
    ensures Distinct(order[1..]) && order[0] !in order[1..]
    ensures forall k :: k in order <==> k == order[0] || k in order[1..]
  {
    assert order == [order[0]] + order[1..];
  }

  /** Reloading touches exactly the listed files. */
  lemma {:induction false} RecoverFacts(plans: Plans, s: Server, limits: Limits, order: seq<Key>)
    requires ValidPlans(plans) && Invariant(plans, s) && Distinct(order)
    ensures Invariant(plans, Recover(s, limits, order))
    ensures forall k :: At(Recover(s, limits, order), k) == if k in order then Reloaded(At(s, k)) else At(s, k)
    ensures Recover(s, limits, order).versioned == s.versioned
    decreases order
  {
    if order != [] {
      RecoverOneFacts(plans, s, limits, order[0]);
      DistinctTail(order);
      RecoverFacts(plans, RecoverOne(s, limits, order[0]), limits, order[1..]);
    }
  }

  lemma ForgottenInvariant(plans: Plans, s: Server)
    requires ValidPlans(plans) && Invariant(plans, s)
    ensures Invariant(plans, Forgotten(s))
    ensures forall k :: At(Forgotten(s), k) == Crashed(At(s, k))
  {
  }

  /** Every allowed event keeps the invariant. */
  lemma StepKeepsInvariant(plans: Plans, s: Server, limits: Limits, e: Event)
    requires ValidPlans(plans) && Invariant(plans, s) && Allowed(plans, s, e)
    ensures Invariant(plans, Step(s, limits, e))
  {
    match e
    case Deliver(d) => DeliverKeepsInvariant(plans, s, limits, d);
    case Finalize(i, finish) => FinalizeKeepsInvariant(plans, s, limits, i, finish);
    case BlindRestart => ForgottenInvariant(plans, s);
    case Restart(order) =>
      ForgottenInvariant(plans, s);
      RecoverFacts(plans, Forgotten(s), limits, order);
    case _ =>
  }

  lemma {:induction false} RunKeepsInvariant(plans: Plans, s: Server, limits: Limits, events: seq<Event>)
    requires ValidPlans(plans) && Invariant(plans, s) && AllowedRun(plans, s, limits, events)
    ensures Invariant(plans, Run(s, limits, events))
    decreases |events|
  {
    if events != [] {
      var before := events[..|events| - 1];
      RunKeepsInvariant(plans, s, limits, before);
      StepKeepsInvariant(plans, Run(s, limits, before), limits, events[|events| - 1]);
    }
  }

  lemma RunUnfold(s: Server, limits: Limits, events: seq<Event>, j: nat)
    requires j < |events|
    ensures Run(s, limits, events[..j + 1]) == Step(Run(s, limits, events[..j]), limits, events[j])
  {
    assert events[..j + 1][..j] == events[..j];
  }

  lemma {:induction false} AllowedPrefix(plans: Plans, s: Server, limits: Limits, events: seq<Event>, j: nat)
    requires ValidPlans(plans) && AllowedRun(plans, s, limits, events) && j <= |events|
    ensures AllowedRun(plans, s, limits, events[..j])
    ensures j < |events| ==> Allowed(plans, Run(s, limits, events[..j]), events[j])
    decreases |events|
  {
    if j == |events| {
      assert events[..j] == events;
    } else if j + 1 < |events| {
      var before := events[..|events| - 1];
      AllowedPrefix(plans, s, limits, before, j);
      assert before[..j] == events[..j];
    }
  }

  // ---------- Safety over whole runs ----------

  /** A server that has only seen files put there by somebody else. */
  ghost predicate Initial(s: Server) {
    && (forall k :: k in s.files ==> s.files[k].rows == map[] && s.files[k].record.None? && !s.files[k].finalizing)
    && s.tasks == [] && s.versioned == map[]
  }

  lemma RunInvariant(plans: Plans, s: Server, limits: Limits, events: seq<Event>, j: nat)
    requires ValidPlans(plans) && Initial(s) && AllowedRun(plans, s, limits, events) && j <= |events|
    ensures Invariant(plans, Run(s, limits, events[..j]))
  {
    AllowedPrefix(plans, s, limits, events, j);
    RunKeepsInvariant(plans, s, limits, events[..j]);
  }

  /** A property every fitting step keeps is kept along a stretch of fitting steps. */
  lemma {:induction false} Along(
    plans: Plans, s: Server, limits: Limits, events: seq<Event>, i: nat, j: nat,
    holds: Server -> bool, fits: (Server, Event) -> bool)
    requires ValidPlans(plans) && Initial(s) && AllowedRun(plans, s, limits, events) && i <= j <= |events|
    requires holds(Run(s, limits, events[..i]))
    requires forall m :: i <= m < j ==> fits(Run(s, limits, events[..m]), events[m])
    requires forall x, e :: Invariant(plans, x) && Allowed(plans, x, e) && holds(x) && fits(x, e)
               ==> holds(Step(x, limits, e))
    ensures holds(Run(s, limits, events[..j]))
    decreases j
  {
    hide AllowedRun, Run, Step, Initial;
    if i < j {
      Along(plans, s, limits, events, i, j - 1, holds, fits);
      RunInvariant(plans, s, limits, events, j - 1);
      AllowedPrefix(plans, s, limits, events, j - 1);
      RunUnfold(s, limits, events, j - 1);
    }
  }

  /** End-to-end safety: in every reachable state a recorded file is, byte for
      byte, the whole content of the recorded transfer. */
  lemma RecordedMeansDelivered(plans: Plans, s: Server, limits: Limits, events: seq<Event>, k: Key)
    requires ValidPlans(plans) && Initial(s) && AllowedRun(plans, s, limits, events)
    ensures var f := At(Run(s, limits, events), k);
            f.record.Some? ==> f.record.value in plans && f.bytes == Some(plans[f.record.value].content)
  {
    RunKeepsInvariant(plans, s, limits, events);
  }

  /** No mixing: in every reachable state the rows of a file carry one transfer id
      and never coexist with a completion record. */
  lemma NoMixing(plans: Plans, s: Server, limits: Limits, events: seq<Event>, k: Key)
    requires ValidPlans(plans) && Initial(s) && AllowedRun(plans, s, limits, events)
    ensures var f := At(Run(s, limits, events), k);
            && (forall m, n :: m in f.rows && n in f.rows ==> f.rows[m].transferId == f.rows[n].transferId)
            && (f.rows == map[] || f.record.None?)
  {
    RunKeepsInvariant(plans, s, limits, events);
  }

  lemma DeliverKeepsFrozen(plans: Plans, s: Server, limits: Limits, d: Delivery, k: Key)
    requires ValidPlans(plans) && Invariant(plans, s) && Allowed(plans, s, Deliver(d))
    requires At(s, k).finalizing
    ensures At(Receive(s, limits, d).0, k) == At(s, k)
  {
    DeliverIsLocal(plans, s, limits, d);
    if EffectiveKey(s, d) == k {
      match Decided(At(s, k), d)
      case Answered(_) =>
      case Proceed(rep, res) => ProceedMeansReceptive(plans, At(s, k), d.policy, d.packet, rep, res);
    }
  }

  /** The pending finalization of k is run, or forgotten by a restart. */
  predicate EndsFinalization(s: Server, e: Event, k: Key) {
    e.StartsUp() || (e.Finalize? && e.task < |s.tasks| && s.tasks[e.task] == k)
  }

  /** Over runs: while a finalization is pending, nothing changes rows, record, bytes or
      flag of that file, whatever is delivered. */
  lemma FrozenWhileFinalizing(plans: Plans, s: Server, limits: Limits, events: seq<Event>, i: nat, j: nat, k: Key)
    requires ValidPlans(plans) && Initial(s) && AllowedRun(plans, s, limits, events) && i <= j <= |events|
    requires At(Run(s, limits, events[..i]), k).finalizing
    requires forall m :: i <= m < j ==> !EndsFinalization(Run(s, limits, events[..m]), events[m], k)
    ensures At(Run(s, limits, events[..j]), k) == At(Run(s, limits, events[..i]), k)
  {
    var f := At(Run(s, limits, events[..i]), k);
    forall x, e | Invariant(plans, x) && Allowed(plans, x, e) && At(x, k) == f && !EndsFinalization(x, e, k)
      ensures At(Step(x, limits, e), k) == f
    {
      if e.Deliver? {
        DeliverKeepsFrozen(plans, x, limits, e.delivery, k);
      }
    }
    Along(plans, s, limits, events, i, j, x => At(x, k) == f, (x, e) => !EndsFinalization(x, e, k));
  }

  /** A chunk reaches file k under the Overwrite policy. */
  predicate Overwrites(s: Server, e: Event, k: Key) {
    e.Deliver? && EffectiveKey(s, e.delivery) == k && e.delivery.policy.Overwrite?
  }

  lemma StepKeepsRecord(plans: Plans, s: Server, limits: Limits, e: Event, k: Key)
    requires ValidPlans(plans) && Invariant(plans, s) && Allowed(plans, s, e)
    requires At(s, k).record.Some? && !Overwrites(s, e, k)
    ensures At(Step(s, limits, e), k).record == At(s, k).record
    ensures At(Step(s, limits, e), k).bytes == At(s, k).bytes
  {
    AtSound(plans, s, k);
    match e
    case Deliver(d) =>
      DeliverIsLocal(plans, s, limits, d);
      if EffectiveKey(s, d) == k {
        match Decided(At(s, k), d)
        case Answered(_) =>
        case Proceed(rep, res) => ProceedMeansReceptive(plans, At(s, k), d.policy, d.packet, rep, res);
      }
    case Finalize(i, finish) => assert s.tasks[i] in s.tasks;
    case BlindRestart => ForgottenInvariant(plans, s);
    case Restart(order) =>
      ForgottenInvariant(plans, s);
      RecoverFacts(plans, Forgotten(s), limits, order);
    case _ =>
  }

  /** Over runs: without an Overwrite delivery to it, a recorded file keeps its record
      and its bytes through every event, restarts included. */
  lemma RecordIsFinal(plans: Plans, s: Server, limits: Limits, events: seq<Event>, i: nat, j: nat, k: Key)
    requires ValidPlans(plans) && Initial(s) && AllowedRun(plans, s, limits, events) && i <= j <= |events|
    requires At(Run(s, limits, events[..i]), k).record.Some?
    requires forall m :: i <= m < j ==> !Overwrites(Run(s, limits, events[..m]), events[m], k)
    ensures At(Run(s, limits, events[..j]), k).record == At(Run(s, limits, events[..i]), k).record
    ensures At(Run(s, limits, events[..j]), k).bytes == At(Run(s, limits, events[..i]), k).bytes
  {
    var f := At(Run(s, limits, events[..i]), k);
    forall x, e | Invariant(plans, x) && Allowed(plans, x, e) && At(x, k).record == f.record
                  && At(x, k).bytes == f.bytes && !Overwrites(x, e, k)
      ensures At(Step(x, limits, e), k).record == f.record && At(Step(x, limits, e), k).bytes == f.bytes
    {
      StepKeepsRecord(plans, x, limits, e, k);
    }
    Along(plans, s, limits, events, i, j,
          x => At(x, k).record == f.record && At(x, k).bytes == f.bytes, (x, e) => !Overwrites(x, e, k));
  }
}
