/** What a delivery achieves: how every chunk is answered, that a chunk whose effects all
    work is stored, and that a transfer sent whole arrives. */
module ServerProgress {
  import opened Basics
  import opened TransferPlans
  import opened ServerFile
  import opened ServerSafety
  import opened ServerMachine
  import opened ServerRuns
  import opened ServerDurability
  import opened ServerTasks

  // ---------- How a delivery is answered ----------

  /** The chunk can add nothing: the file is recorded and not to be replaced by it, its
      finalization is pending, or it is a stray file that keeps its name. */
  predicate Settled(f: FileState, d: Delivery) {
    var t, zero := d.packet.transferId, d.packet.number == 0;
    if f.record.Some? then f.record == Some(t) || !zero || d.policy.Reject?
    else if f.rows == map[] then f.bytes.Some? && !(zero && d.policy.Versioned?)
    else f.finalizing && (ActiveTransfer(f) == t || zero)
  }

  /** Another transfer is under way and only its own chunks or a chunk zero count. */
  predicate Foreign(f: FileState, d: Delivery) {
    && f.record.None? && f.rows != map[]
    && ActiveTransfer(f) != d.packet.transferId && d.packet.number != 0
  }

  /** Chunk zero of new content for a name that is taken, under the Versioned policy. */
  predicate Renamed(f: FileState, d: Delivery) {
    && d.packet.number == 0 && d.policy.Versioned?
    && (if f.record.Some? then f.record != Some(d.packet.transferId) else f.rows == map[] && f.bytes.Some?)
  }

  /** What the file held belongs to another transfer and goes first. */
  predicate Outdated(f: FileState, d: Delivery) {
    f.record.Some? || (f.rows != map[] && ActiveTransfer(f) != d.packet.transferId)
  }

  /** The file is within the size limit and, if it is to be created, so is the client's
      total with it and without the old one. */
  ghost predicate Fits(s: Server, limits: Limits, k: Key, outdated: bool, fileSize: nat) {
    && fileSize <= limits.maxFileSize
    && (outdated || At(s, k).bytes.None? ==>
          && Usage(s.files, k.client) - Size(At(s, k)) < UINT64_MAX
          && Usage(s.files, k.client) - Size(At(s, k)) + fileSize <= limits.maxClientStorage)
  }

  lemma UsageWithoutFile(s: Server, k: Key, f: FileState)
    requires f.bytes.None?
    ensures Usage(s.files[k := f], k.client) == Usage(s.files, k.client) - Size(At(s, k))
  {
    UsageUpdate(s.files, k.client, k, f);
  }

  lemma VerdictIs(plans: Plans, f: FileState, d: Delivery)
    requires ValidPlans(plans) && Sound(plans, f) && Genuine(plans, d.packet)
    ensures PreCheck(f, d.policy, d.packet) ==
            if Settled(f, d) then Answered(AlreadyCompleted)
            else if Foreign(f, d) then Answered(Failed)
            else if Renamed(f, d) then UseFreshName
            else Proceed(f.record.Some?, f.rows != map[] && ActiveTransfer(f) != d.packet.transferId)
  {
  }

  lemma AdmittedIff(plans: Plans, s: Server, limits: Limits, k: Key, p: Packet, replace: bool, reset: bool)
    requires ValidPlans(plans) && Genuine(plans, p) && p.data == plans[p.transferId].Piece(p.number)
    ensures Admissible(s.files, limits, k, Progress(At(s, k), p, replace, reset, FileRemoved), p)
       <==> Fits(s, limits, k, replace || reset, p.fileSize)
  {
    PiecePlacement(plans[p.transferId], p.number);
    var removed := Progress(At(s, k), p, replace, reset, FileRemoved);
    if removed.bytes.None? {
      UsageWithoutFile(s, k, removed);
    }
    hide Usage;
  }

  /** What becomes of a chunk once it is let through to a file; `works` says that all
      its effects take place. */
  ghost predicate Taken(
    plans: Plans, f: FileState, d: Delivery, outdated: bool, works: bool, f': FileState, a: Answer)
    requires ValidPlans(plans) && Genuine(plans, d.packet)
  {
    var p, rows := d.packet, Before(f, outdated);
    if !d.intact || d.reach.Untouched? then a == Failed && f' == f
    else if Stores(rows, p.number) then a == Stored && f' == f
    else if works then
      && Held(f', p.transferId, p.number) && f'.record.None?
      && (forall n :: n != p.number ==> (Stores(f'.rows, n) <==> Stores(rows, n)))
      && (a == Stored ==> !f'.finalizing)
      && a == (if forall n :: 0 <= n < plans[p.transferId].Count() && n != p.number ==> Stores(rows, n)
               then JustCompleted else Stored)
    else a == Failed
  }

  /** A new chunk whose effects all work. */
  lemma CountedIsTaken(plans: Plans, f: FileState, d: Delivery, replace: bool, reset: bool, room: bool)
    requires ValidPlans(plans) && Sound(plans, f) && Genuine(plans, d.packet) && d.intact
    requires PreCheck(f, d.policy, d.packet) == Proceed(replace, reset) && Undamaged(plans, d.packet, true, Counted)
    requires !d.reach.Untouched? && !Stores(Before(f, reset), d.packet.number)
    ensures var r := Accepted(f, d.packet, replace, reset, true, Counted, room);
            Taken(plans, f, d, reset, true, r.file, r.answer)
  {
    var p := d.packet;
    var r := Accepted(f, p, replace, reset, true, Counted, room);
    var done := Progress(f, p, replace, reset, Counted);
    ProceedMeansReceptive(plans, f, d.policy, p, replace, reset);
    AcceptedAnswerIsHeld(plans, f, d.policy, p, replace, reset, true, Counted, room);
    MarkedRows(plans, f, d.policy, p, replace, reset);
    MarkedIsDue(plans, f, d.policy, p, replace, reset);
    CompletedIffAllStored(plans, f, d.policy, p, replace, reset, room);
    ProgressSound(plans, f, d.policy, p, replace, reset, Counted);
    CompleteStores(plans[p.transferId], r.file.rows);
    hide Sound, InProgress, Progress, PreCheck, Genuine;
    assert r.file.rows == done.rows && r.file.record == done.record;
  }

  lemma AcceptedIsTaken(plans: Plans, f: FileState, d: Delivery, replace: bool, reset: bool, reach: Reach, room: bool)
    requires ValidPlans(plans) && Sound(plans, f) && Genuine(plans, d.packet)
    requires PreCheck(f, d.policy, d.packet) == Proceed(replace, reset) && Undamaged(plans, d.packet, d.intact, reach)
    requires reach.Rank() == 0 <==> d.reach.Untouched?
    ensures var r := Accepted(f, d.packet, replace, reset, d.intact, reach, room);
            Taken(plans, f, d, replace || reset, reach.Counted?, r.file, r.answer)
  {
    ProceedMeansReceptive(plans, f, d.policy, d.packet, replace, reset);
    assert Before(f, replace || reset) == Before(f, reset);
    hide Sound, InProgress, Progress, PreCheck, Genuine, Held, Accounted;
    if d.intact && reach.Counted? && !Stores(Before(f, reset), d.packet.number) {
      CountedIsTaken(plans, f, d, replace, reset, room);
    }
  }

  lemma ReachedIff(plans: Plans, s: Server, limits: Limits, d: Delivery, k: Key, replace: bool, reset: bool)
    requires ValidPlans(plans) && Genuine(plans, d.packet) && Undamaged(plans, d.packet, d.intact, d.reach)
    ensures d.intact ==>
              (AdmittedReach(s, limits, k, d, replace, reset).Counted?
               <==> d.reach.Counted? && Fits(s, limits, k, replace || reset, d.packet.fileSize))
    ensures AdmittedReach(s, limits, k, d, replace, reset).Rank() == 0 <==> d.reach.Rank() == 0
  {
    if d.intact {
      AdmittedIff(plans, s, limits, k, d.packet, replace, reset);
    }
    hide Admissible, Fits, Progress, Genuine;
  }

  lemma ProceedIsTaken(plans: Plans, s: Server, limits: Limits, d: Delivery, k: Key, replace: bool, reset: bool)
    requires ValidPlans(plans) && Invariant(plans, s) && Allowed(plans, s, Deliver(d))
    requires EffectiveKey(s, d) == k && Decided(At(s, k), d) == Proceed(replace, reset)
    ensures Taken(plans, At(s, k), d, replace || reset,
                  d.reach.Counted? && Fits(s, limits, k, replace || reset, d.packet.fileSize),
                  At(Receive(s, limits, d).0, k), Receive(s, limits, d).1)
  {
    DeliverIsLocal(plans, s, limits, d);
    AtSound(plans, s, k);
    var reach := AdmittedReach(s, limits, k, d, replace, reset);
    ReachedIff(plans, s, limits, d, k, replace, reset);
    AcceptedIsTaken(plans, At(s, k), d, replace, reset, reach, HasRoom(s, limits));
    hide Receive, EffectiveKey, AdmittedReach, Fits, Sound, PreCheck, Genuine, Accepted, Undamaged;
  }

  /** Every delivery whose pre-check can be read, from every state that keeps the
      invariant: a settled file answers AlreadyCompleted and a foreign chunk is
      refused, both changing nothing; every other chunk is let through to the file
      of its name, or to the fresh one when its content is renamed. There a chunk
      already stored is acknowledged, and any other is held and acknowledged exactly
      when its digest holds, all its effects work and the file fits. */
  lemma DeliveryOutcome(plans: Plans, s: Server, limits: Limits, d: Delivery)
    requires ValidPlans(plans) && Invariant(plans, s) && Allowed(plans, s, Deliver(d)) && !d.reach.Unchecked?
    ensures var own := LookupKey(s, d);
            var f := At(s, own);
            var (s', a) := Receive(s, limits, d);
            if Settled(f, d) then a == AlreadyCompleted && s' == s
            else if Foreign(f, d) then a == Failed && s' == s
            else
              var k := if Renamed(f, d) then d.freshKey else own;
              var outdated := !Renamed(f, d) && Outdated(f, d);
              && EffectiveKey(s, d) == k
              && Taken(plans, At(s, k), d, outdated,
                       d.reach.Counted? && Fits(s, limits, k, outdated, d.packet.fileSize), At(s', k), a)
  {
    var own := LookupKey(s, d);
    AtSound(plans, s, own);
    VerdictIs(plans, At(s, own), d);
    DeliverIsLocal(plans, s, limits, d);
    if Renamed(At(s, own), d) && !Settled(At(s, own), d) && !Foreign(At(s, own), d) {
      assert Decided(Absent, d) == Proceed(false, false);
      ProceedIsTaken(plans, s, limits, d, d.freshKey, false, false);
    } else if !Settled(At(s, own), d) && !Foreign(At(s, own), d) {
      var v := Decided(At(s, own), d);
      ProceedIsTaken(plans, s, limits, d, own, v.replace, v.reset);
    }
    hide Taken, Fits, Sound, Genuine, Undamaged, Accepted, PreCheck, AdmittedReach;
  }

  /** Whatever the packet says: a delivery that is acknowledged and changes anything is
      undamaged, within the size limit and within its own declared size. */
  lemma AcknowledgedChangeIsWithinLimits(s: Server, limits: Limits, d: Delivery)
    requires At(s, d.freshKey) == Absent
    requires Receive(s, limits, d).1 in {Stored, JustCompleted} && Receive(s, limits, d).0.files != s.files
    ensures d.intact && d.packet.TargetSize() <= limits.maxFileSize
    ensures d.packet.fileSize > 0 ==> d.packet.offset + |d.packet.data| <= d.packet.fileSize
  {
    hide Usage, Progress, PreCheck, Accounted;
  }

  // ---------- Fresh names ----------

  /** A chunk zero of new content for a taken name gives that name a fresh one. */
  predicate GivesName(s: Server, e: Event, key: Key) {
    && e.Deliver? && e.delivery.key == key && Renamed(At(s, key), e.delivery)
    && e.delivery.reach != Unchecked(false)
  }

  /** The fresh name given to `key` is forgotten or replaced. */
  ghost predicate EndsName(s: Server, limits: Limits, e: Event, key: Key) {
    || e.StartsUp() || GivesName(s, e, key)
    || (&& e.Deliver? && e.delivery.key == key && e.delivery.policy.Versioned? && e.delivery.packet.number != 0
        && Receive(s, limits, e.delivery).1.JustCompleted?)
  }

  /** How a delivery changes the fresh name of a key. */
  lemma NamesAfterDelivery(plans: Plans, s: Server, limits: Limits, d: Delivery, key: Key)
    requires ValidPlans(plans) && Invariant(plans, s) && Allowed(plans, s, Deliver(d))
    ensures var (s', a) := Receive(s, limits, d);
            && (GivesName(s, Deliver(d), key) && !a.JustCompleted? ==>
                  key in s'.versioned && s'.versioned[key] == d.freshKey)
            && (!EndsName(s, limits, Deliver(d), key) && key in s.versioned ==>
                  key in s'.versioned && s'.versioned[key] == s.versioned[key])
            && (!GivesName(s, Deliver(d), key) && key !in s.versioned ==> key !in s'.versioned)
  {
    AtSound(plans, s, LookupKey(s, d));
    VerdictIs(plans, At(s, LookupKey(s, d)), d);
    hide Accepted, AdmittedReach, PreCheck, Sound, Undamaged;
  }

  /** The delivery that completes a renamed transfer ends its fresh name. */
  lemma CompletionEndsName(plans: Plans, s: Server, limits: Limits, d: Delivery)
    requires ValidPlans(plans) && Invariant(plans, s) && Allowed(plans, s, Deliver(d))
    requires Receive(s, limits, d).1.JustCompleted? && d.policy.Versioned?
    requires GivesName(s, Deliver(d), d.key) || (d.packet.number != 0 && d.key in s.versioned)
    ensures d.key !in Receive(s, limits, d).0.versioned
  {
    AtSound(plans, s, LookupKey(s, d));
    VerdictIs(plans, At(s, LookupKey(s, d)), d);
    hide Accepted, AdmittedReach, PreCheck, Sound, Undamaged;
  }

  lemma NamesAfterOther(plans: Plans, s: Server, limits: Limits, e: Event)
    requires ValidPlans(plans) && Invariant(plans, s) && Allowed(plans, s, e) && !e.Deliver?
    ensures Step(s, limits, e).versioned == if e.StartsUp() then map[] else s.versioned
  {
    ForgottenInvariant(plans, s);
    match e
    case Restart(order) => RecoverFacts(plans, Forgotten(s), limits, order);
    case _ =>
  }

  lemma NamesStep(plans: Plans, s: Server, limits: Limits, e: Event, key: Key)
    requires ValidPlans(plans) && Invariant(plans, s) && Allowed(plans, s, e)
    ensures var s' := Step(s, limits, e);
            && (!EndsName(s, limits, e, key) && key in s.versioned ==>
                  key in s'.versioned && s'.versioned[key] == s.versioned[key])
            && (!GivesName(s, e, key) && key !in s.versioned ==> key !in s'.versioned)
  {
    if e.Deliver? {
      NamesAfterDelivery(plans, s, limits, e.delivery, key);
    } else {
      NamesAfterOther(plans, s, limits, e);
    }
    hide Receive, Recover;
  }

  /** Over runs: once a chunk zero has given a taken name a fresh one, every later chunk
      of that name under the Versioned policy acts on the fresh one, until one of
      them completes the file, the server starts up, or the name is given another. */
  lemma FreshNameLasts(plans: Plans, s: Server, limits: Limits, events: seq<Event>, i: nat, j: nat, key: Key)
    requires ValidPlans(plans) && Initial(s) && AllowedRun(plans, s, limits, events) && i < j <= |events|
    requires var before := Run(s, limits, events[..i]);
             GivesName(before, events[i], key) && !Receive(before, limits, events[i].delivery).1.JustCompleted?
    requires forall m :: i < m < j ==> !EndsName(Run(s, limits, events[..m]), limits, events[m], key)
    ensures forall d: Delivery :: d.key == key && d.policy.Versioned? && d.packet.number != 0 ==>
              EffectiveKey(Run(s, limits, events[..j]), d) == events[i].delivery.freshKey
  {
    var name := events[i].delivery.freshKey;
    RunInvariant(plans, s, limits, events, i);
    AllowedPrefix(plans, s, limits, events, i);
    RunUnfold(s, limits, events, i);
    NamesAfterDelivery(plans, Run(s, limits, events[..i]), limits, events[i].delivery, key);
    hide Run, Receive, GivesName, EndsName, AllowedRun, Initial, Invariant;
    forall x, e | Invariant(plans, x) && Allowed(plans, x, e) && key in x.versioned && x.versioned[key] == name
                  && !EndsName(x, limits, e, key)
      ensures key in Step(x, limits, e).versioned && Step(x, limits, e).versioned[key] == name
    {
      NamesStep(plans, x, limits, e, key);
    }
    Along(plans, s, limits, events, i + 1, j, (x: Server) => key in x.versioned && x.versioned[key] == name,
          (x, e) => !EndsName(x, limits, e, key));
  }

  /** Over runs: every chunk zero, every chunk under another policy, and every chunk of a
      name that was given no fresh one since the last start-up acts on its own name,
      unless it is itself renamed. */
  lemma OwnNameOtherwise(plans: Plans, s: Server, limits: Limits, events: seq<Event>, i: nat, j: nat, d: Delivery)
    requires ValidPlans(plans) && Initial(s) && AllowedRun(plans, s, limits, events) && i <= j <= |events|
    requires i == 0 || events[i - 1].StartsUp()
    requires d.packet.number == 0 || !d.policy.Versioned?
             || forall m :: i <= m < j ==> !GivesName(Run(s, limits, events[..m]), events[m], d.key)
    requires Genuine(plans, d.packet) && !Renamed(At(Run(s, limits, events[..j]), d.key), d)
    ensures EffectiveKey(Run(s, limits, events[..j]), d) == d.key
  {
    RunInvariant(plans, s, limits, events, j);
    var later := Run(s, limits, events[..j]);
    if d.packet.number != 0 && d.policy.Versioned? {
      assert d.key !in Run(s, limits, events[..i]).versioned by {
        if i > 0 {
          RunInvariant(plans, s, limits, events, i - 1);
          AllowedPrefix(plans, s, limits, events, i - 1);
          RunUnfold(s, limits, events, i - 1);
          NamesAfterOther(plans, Run(s, limits, events[..i - 1]), limits, events[i - 1]);
        }
      }
      hide Run, GivesName, AllowedRun, Initial, Invariant;
      forall x, e | Invariant(plans, x) && Allowed(plans, x, e) && d.key !in x.versioned && !GivesName(x, e, d.key)
        ensures d.key !in Step(x, limits, e).versioned
      {
        NamesStep(plans, x, limits, e, d.key);
      }
      Along(plans, s, limits, events, i, j, (x: Server) => d.key !in x.versioned, (x, e) => !GivesName(x, e, d.key));
    }
    AtSound(plans, later, d.key);
    VerdictIs(plans, At(later, d.key), d);
  }

  /** A start-up forgets the fresh names: the next chunks of a renamed transfer meet the
      recorded original and are answered AlreadyCompleted, although the server keeps
      waiting for them under the fresh name. */
  lemma StartUpForgetsNames(plans: Plans, s: Server, limits: Limits, e: Event, d: Delivery)
    requires ValidPlans(plans) && Invariant(plans, s) && Allowed(plans, s, e) && e.StartsUp()
    requires var s' := Step(s, limits, e);
             && Allowed(plans, s', Deliver(d)) && !d.reach.Unchecked? && d.packet.number != 0
             && At(s', d.key).record.Some? && At(s', d.key).record != Some(d.packet.transferId)
    ensures Receive(Step(s, limits, e), limits, d) == (Step(s, limits, e), AlreadyCompleted)
    ensures !Held(At(Step(s, limits, e), d.key), d.packet.transferId, d.packet.number)
  {
    StepKeepsInvariant(plans, s, limits, e);
    NamesAfterOther(plans, s, limits, e);
    AtSound(plans, Step(s, limits, e), d.key);
    hide Step;
    DeliveryOutcome(plans, Step(s, limits, e), limits, d);
  }

  // ---------- The remaining counter ----------

  /** The numbers of the chunks a file still lacks. */
  ghost function Missing(plan: Plan, rows: Rows): set<int>
    requires plan.Valid()
  {
    set n | n in Below(plan.Count()) && !Stores(rows, n)
  }

  /** The total is known: every chunk declares it, or the last one, which does, is here. */
  predicate TotalKnown(plan: Plan, rows: Rows) { !plan.adaptive || |plan.cuts| - 2 in rows }

  lemma MissingCount(plan: Plan, t: TransferId, rows: Rows, bytes: Bytes)
    requires plan.Valid() && Follows(plan, t, rows, bytes)
    ensures |Missing(plan, rows)| == plan.Count() - |Successes(rows)|
    ensures rows != map[] ==> MaxTotal(rows) == if TotalKnown(plan, rows) then plan.Count() else 0
  {
    assert forall n :: n in Successes(rows) ==> 0 <= n < plan.Count();
    KnownTotal(plan, t, rows, bytes);
    hide MaxTotal, Plan.Valid, Follows, TotalKnown;
    var all, done := Below(plan.Count()), Successes(rows);
    assert done <= all;
    assert Missing(plan, rows) == all - done;
  }

  lemma KnownTotal(plan: Plan, t: TransferId, rows: Rows, bytes: Bytes)
    requires plan.Valid() && Follows(plan, t, rows, bytes)
    ensures rows != map[] ==> MaxTotal(rows) == if TotalKnown(plan, rows) then plan.Count() else 0
  {
    var top := MaxTotal(rows);
    hide MaxTotal;
    if rows != map[] && TotalKnown(plan, rows) {
      assert rows.Keys == {} ==> rows == map[];
      SomeElement(rows.Keys);
      var some :| some in rows.Keys;
      var n := if plan.adaptive then plan.Count() - 1 else some;
      assert rows[n].total == plan.Declared(n) == plan.Count() <= top;
    }
    if top > 0 {
      var n :| n in rows && rows[n].total == top;
      assert rows[n].total == plan.Declared(n);
    }
  }

  lemma AccountedCounter(plans: Plans, f: FileState, p: Packet, room: bool)
    requires ValidPlans(plans) && Sound(plans, f) && Genuine(plans, p)
    requires Receptive(plans, p.transferId, f) && p.number in f.rows
    requires Accounted(f, p, room).answer == Stored && TotalKnown(plans[p.transferId], f.rows)
    ensures Accounted(f, p, room).file.remaining == Some(|Missing(plans[p.transferId], f.rows)|)
  {
    MissingCount(plans[p.transferId], p.transferId, f.rows, f.bytes.value);
    hide MaxTotal, Successes, Missing;
  }

  lemma AcceptedCounter(plans: Plans, f: FileState, d: Delivery, replace: bool, reset: bool, reach: Reach, room: bool)
    requires ValidPlans(plans) && Sound(plans, f) && Genuine(plans, d.packet)
    requires PreCheck(f, d.policy, d.packet) == Proceed(replace, reset) && Undamaged(plans, d.packet, d.intact, reach)
    ensures var r := Accepted(f, d.packet, replace, reset, d.intact, reach, room);
            && (r.answer == Stored && r.file.rows != f.rows && TotalKnown(plans[d.packet.transferId], r.file.rows) ==>
                  r.file.remaining == Some(|Missing(plans[d.packet.transferId], r.file.rows)|))
            && (r.answer == JustCompleted ==> r.file.remaining == None)
  {
    var p := d.packet;
    if d.intact && reach.Counted? && (reset || !Stores(f.rows, p.number)) {
      ProgressSound(plans, f, d.policy, p, replace, reset, Counted);
      var done := Progress(f, p, replace, reset, Counted);
      hide Progress, PreCheck, Sound, InProgress, Missing;
      if Accounted(done, p, room).answer == Stored && TotalKnown(plans[p.transferId], done.rows) {
        AccountedCounter(plans, done, p, room);
      }
    }
    hide Progress, PreCheck, Sound, InProgress, Missing;
  }

  /** A delivery that stores a chunk without completing the file leaves the counter at
      the number of chunks still missing, once the total is known; the completing one
      leaves none. */
  lemma CounterAfterDelivery(plans: Plans, s: Server, limits: Limits, d: Delivery)
    requires ValidPlans(plans) && Invariant(plans, s) && Allowed(plans, s, Deliver(d))
    ensures var (s', a) := Receive(s, limits, d);
            var f := At(s', EffectiveKey(s, d));
            && (a == Stored && f.rows != At(s, EffectiveKey(s, d)).rows
                && TotalKnown(plans[d.packet.transferId], f.rows) ==>
                  f.remaining == Some(|Missing(plans[d.packet.transferId], f.rows)|))
            && (a == JustCompleted ==> f.remaining == None)
  {
    var k := EffectiveKey(s, d);
    DeliverIsLocal(plans, s, limits, d);
    AtSound(plans, s, k);
    match Decided(At(s, k), d)
    case Answered(_) =>
    case Proceed(rep, res) =>
      var reach := AdmittedReach(s, limits, k, d, rep, res);
      hide Sound, Accepted, PreCheck, AdmittedReach, Undamaged, Genuine, Missing, Receive;
      AcceptedCounter(plans, At(s, k), d, rep, res, reach, HasRoom(s, limits));
  }

  /** After a start-up that lists the files, every unfinished one with a known total has
      its counter at the number of missing chunks, and no other file has one. */
  lemma CounterAfterRestart(plans: Plans, s: Server, limits: Limits, order: seq<Key>, k: Key)
    requires ValidPlans(plans) && Invariant(plans, s) && Visits(s, order)
    ensures var f := At(s, k);
            At(Step(s, limits, Restart(order)), k).remaining ==
            if f.rows != map[] && TotalKnown(plans[ActiveTransfer(f)], f.rows) && !Due(plans, f)
            then Some(|Missing(plans[ActiveTransfer(f)], f.rows)|) else None
  {
    AtSound(plans, s, k);
    RestartAt(plans, s, limits, order, k);
    var f := At(s, k);
    ReloadedSound(plans, Crashed(f));
    if f.rows != map[] {
      var plan := plans[ActiveTransfer(f)];
      MissingCount(plan, ActiveTransfer(f), f.rows, f.bytes.value);
      CountingIffComplete(plan, ActiveTransfer(f), f.rows, f.bytes.value);
    }
    hide Step, MaxTotal, Successes, Missing;
  }

  // ---------- A transfer sent whole ----------

  /** Chunk n of transfer t, undamaged, delivered under its own name, and all its effects
      take place. */
  ghost predicate Works(plans: Plans, d: Delivery, key: Key, t: TransferId, n: nat)
    requires ValidPlans(plans)
  {
    && Genuine(plans, d.packet) && d.key == key && d.packet.transferId == t && d.packet.number == n
    && d.intact && d.packet.data == plans[t].Piece(n) && d.reach.Counted?
  }

  function Deliveries(ds: seq<Delivery>): (events: seq<Event>)
    ensures |events| == |ds| && forall i :: 0 <= i < |ds| ==> events[i] == Deliver(ds[i])
  {
    seq(|ds|, i requires 0 <= i < |ds| => Deliver(ds[i]))
  }

  /** The first n chunks are in; the rest of the server is as it was. */
  ghost predicate Underway(plans: Plans, s: Server, x: Server, k: Key, t: TransferId, n: nat)
    requires t in plans
  {
    var f := At(x, k);
    && f.record.None? && !f.finalizing && k !in x.versioned
    && (if n == 0 then f.rows == map[] && f.bytes.None? && x.files == s.files
        else f.rows != map[] && f.bytes.Some? && ActiveTransfer(f) == t)
    && (forall m :: Stores(f.rows, m) <==> 0 <= m < n)
    && x.tasks == s.tasks && x.others == s.others && x.stopped == s.stopped
  }

  /** The next chunk of a transfer under way is stored, and the last one completes it. */
  lemma NextChunkWorks(plans: Plans, s: Server, x: Server, limits: Limits, d: Delivery, k: Key, t: TransferId, n: nat)
    requires ValidPlans(plans) && Invariant(plans, x) && t in plans && n < plans[t].Count()
    requires Underway(plans, s, x, k, t, n) && Works(plans, d, k, t, n) && At(x, d.freshKey) == Absent
    requires |plans[t].content| <= limits.maxFileSize
    requires n == 0 ==> Usage(s.files, k.client) < UINT64_MAX
                        && Usage(s.files, k.client) + |plans[t].content| <= limits.maxClientStorage
    ensures var (x', a) := Receive(x, limits, d);
            && EffectiveKey(x, d) == k
            && Held(At(x', k), t, n)
            && a == (if n + 1 == plans[t].Count() then JustCompleted else Stored)
            && (a == Stored ==> Underway(plans, s, x', k, t, n + 1))
  {
    var f := At(x, k);
    assert Allowed(plans, x, Deliver(d));
    assert LookupKey(x, d) == k;
    assert Fits(x, limits, k, false, |plans[t].content|) by {
      hide Usage;
    }
    AtSound(plans, x, k);
    DeliveryOutcome(plans, x, limits, d);
    if Receive(x, limits, d).1 == Stored {
      NextChunkKeeps(plans, s, x, limits, d, k, t, n);
    }
    var x' := Receive(x, limits, d).0;
    hide Receive, EffectiveKey, Sound, Usage;
    assert n + 1 < plans[t].Count() ==> !Stores(f.rows, n + 1);
  }

  lemma NextChunkKeeps(plans: Plans, s: Server, x: Server, limits: Limits, d: Delivery, k: Key, t: TransferId, n: nat)
    requires ValidPlans(plans) && Invariant(plans, x) && Allowed(plans, x, Deliver(d))
    requires EffectiveKey(x, d) == k && k !in x.versioned && d.key == k
    requires Receive(x, limits, d).1 == Stored && Held(At(Receive(x, limits, d).0, k), t, n)
    requires At(Receive(x, limits, d).0, k).record.None?
    requires x.tasks == s.tasks && x.others == s.others && x.stopped == s.stopped
    ensures var x' := Receive(x, limits, d).0;
            && x'.tasks == s.tasks && x'.others == s.others && x'.stopped == s.stopped && k !in x'.versioned
            && At(x', k).rows != map[] && At(x', k).bytes.Some? && ActiveTransfer(At(x', k)) == t
  {
    DeliverIsLocal(plans, x, limits, d);
    DeliverKeepsInvariant(plans, x, limits, d);
    AtSound(plans, Receive(x, limits, d).0, k);
    RowsShareTransfer(plans, At(Receive(x, limits, d).0, k), n);
  }

  lemma {:induction false} PrefixWorks(
    plans: Plans, s: Server, limits: Limits, ds: seq<Delivery>, k: Key, t: TransferId, n: nat)
    requires ValidPlans(plans) && Initial(s) && t in plans && n < |ds| == plans[t].Count()
    requires At(s, k) == Absent && |plans[t].content| <= limits.maxFileSize
    requires Usage(s.files, k.client) < UINT64_MAX
    requires Usage(s.files, k.client) + |plans[t].content| <= limits.maxClientStorage
    requires AllowedRun(plans, s, limits, Deliveries(ds))
    requires forall i :: 0 <= i < |ds| ==> Works(plans, ds[i], k, t, i)
    ensures Underway(plans, s, Run(s, limits, Deliveries(ds)[..n]), k, t, n)
  {
    var events := Deliveries(ds);
    hide Works, Usage, Underway, AllowedRun;
    if n == 0 {
      assert Run(s, limits, events[..0]) == s;
      assert Underway(plans, s, s, k, t, 0) by {
        StartsUnderway(plans, s, k, t);
      }
    } else {
      PrefixWorks(plans, s, limits, ds, k, t, n - 1);
      RunUnfold(s, limits, events, n - 1);
      RunInvariant(plans, s, limits, events, n - 1);
      AllowedPrefix(plans, s, limits, events, n - 1);
      hide Run, Initial, Invariant;
      NextChunkWorks(plans, s, Run(s, limits, events[..n - 1]), limits, ds[n - 1], k, t, n - 1);
    }
  }

  lemma StartsUnderway(plans: Plans, s: Server, k: Key, t: TransferId)
    requires Initial(s) && At(s, k) == Absent && t in plans
    ensures Underway(plans, s, s, k, t, 0)
  {
  }

  /** A transfer sent whole: every chunk delivered once, in order, undamaged and with all
      its effects working, to a name nothing is stored under, by a client with room
      for the file. Each is acknowledged, the last one completes the file, and its
      task is queued exactly when the thread pool has room. */
  lemma WholeTransferWorks(plans: Plans, s: Server, limits: Limits, ds: seq<Delivery>, k: Key, t: TransferId, n: nat)
    requires ValidPlans(plans) && Initial(s) && t in plans && n < |ds| == plans[t].Count()
    requires At(s, k) == Absent && |plans[t].content| <= limits.maxFileSize
    requires Usage(s.files, k.client) < UINT64_MAX
    requires Usage(s.files, k.client) + |plans[t].content| <= limits.maxClientStorage
    requires AllowedRun(plans, s, limits, Deliveries(ds))
    requires forall i :: 0 <= i < |ds| ==> Works(plans, ds[i], k, t, i)
    ensures Receive(Run(s, limits, Deliveries(ds)[..n]), limits, ds[n]).1
         == if n + 1 == |ds| then JustCompleted else Stored
    ensures n + 1 == |ds| ==>
              && Due(plans, At(Run(s, limits, Deliveries(ds)), k))
              && ActiveTransfer(At(Run(s, limits, Deliveries(ds)), k)) == t
              && (Unserved(plans, Run(s, limits, Deliveries(ds)), k)
                  <==> s.stopped || |s.tasks| + s.others >= limits.queueCapacity)
  {
    var events := Deliveries(ds);
    var x := Run(s, limits, events[..n]);
    PrefixWorks(plans, s, limits, ds, k, t, n);
    RunUnfold(s, limits, events, n);
    RunInvariant(plans, s, limits, events, n);
    AllowedPrefix(plans, s, limits, events, n);
    hide Run, Initial, Invariant, Usage, AllowedRun, Works, Receive, EffectiveKey;
    NextChunkWorks(plans, s, x, limits, ds[n], k, t, n);
    if n + 1 == |ds| {
      assert events[..n + 1] == events;
      JustCompletedMeans(plans, x, limits, ds[n]);
    }
  }
}
